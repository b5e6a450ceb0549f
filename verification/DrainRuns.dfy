/** The imperative drain of Uploader and the step machine of UploadProtocol are the same drain: every
    pass of the one, with the outcomes of its sends, is a run of the other. */
module DrainRuns {
  import opened Options
  import opened Tables
  import opened Sequences
  import opened UploadProtocol
  import opened Uploader

  /** Steps of the uploader alone, after the shutdown. */
  ghost function Steps(cfg: Settings, p: Proto, acts: seq<Act>): Proto
    decreases |acts|
  {
    if acts == [] then p else Step(cfg, true, Steps(cfg, p, acts[..|acts| - 1]), acts[|acts| - 1])
  }

  lemma OneMore(cfg: Settings, p: Proto, acts: seq<Act>, a: Act)
    ensures Steps(cfg, p, acts + [a]) == Step(cfg, true, Steps(cfg, p, acts), a)
  {
    assert (acts + [a])[..|acts|] == acts;
  }

  function Left(batchMax: int, n: nat): int { if batchMax < 0 then batchMax else batchMax - n }

  /** The machine, started at p with a query of the drain, stands where the pass does after n rows. */
  ghost predicate AtPass(cfg: Settings, p: Proto, s: Progress, n: nat, q: Proto) {
    p.net.conns != [] && q.net.conns != [] && q.net.pc == Read(true) && !s.failed &&
    q.db == Table(s.rows, p.db.nextId) &&
    q.net.scan == Scan(s.upto, Left(cfg.batchMax, n), p.db.rows, p.db.nextId) &&
    q.net.drained == (n > 0) && q.net.gaveUp == p.net.gaveUp &&
    Current(q.net.conns).bytes == Current(p.net.conns).bytes + Pieces(s.tries)
  }

  /** The next row can be read. */
  lemma NextCanBeRead(cfg: Settings, p: Proto, s: Progress, n: nat, q: Proto, id: nat)
    requires AtPass(cfg, p, s, n, q) && Untouched(p.db.rows, s.rows, s.upto) && Left(cfg.batchMax, n) != 0
    requires Waiting(s.rows, s.upto, cfg.retryMax) != {} && id == Least(Waiting(s.rows, s.upto, cfg.retryMax))
    ensures CanRead(cfg, q, id) && Seen(q.net.scan, q.db.rows, id) == Some(s.rows[id])
  {
    assert id in Waiting(s.rows, s.upto, cfg.retryMax);
    forall x | x in s.rows && s.upto < x < id
      ensures !IsPending(s.rows[x], cfg.retryMax)
    {
      assert x !in Waiting(s.rows, s.upto, cfg.retryMax);
    }
  }

  /** Reading it puts it in hand. */
  lemma ReadsNext(cfg: Settings, p: Proto, s: Progress, n: nat, q: Proto, id: nat) returns (r: Proto)
    requires Fits(cfg) && AtPass(cfg, p, s, n, q) && Untouched(p.db.rows, s.rows, s.upto) && Left(cfg.batchMax, n) != 0
    requires Waiting(s.rows, s.upto, cfg.retryMax) != {} && id == Least(Waiting(s.rows, s.upto, cfg.retryMax))
    ensures r == Step(cfg, true, q, NextRow(id)) && r.db == q.db && r.net.conns == q.net.conns
    ensures
      r.net.pc.Send? && r.net.pc == Send(id, s.rows[id].payload, 0, r.net.pc.before, true) &&
      r.net.scan == Advanced(q.net.scan, id) && r.net.drained && r.net.gaveUp == q.net.gaveUp
  {
    NextCanBeRead(cfg, p, s, n, q, id);
    r := Step(cfg, true, q, NextRow(id));
    assert |LineOf(cfg, s.rows[id].payload)| < 512;
    assert r == ReadStep(cfg, q, NextRow(id));
  }

  lemma SendsWhole(cfg: Settings, r: Proto) returns (t: Proto)
    requires r.net.pc.Send? && r.net.pc.k == 0 && r.net.pc.drain && r.net.conns != []
    ensures t == Step(cfg, true, r, Accept(|LineOf(cfg, r.net.pc.item)|)) && t.db == r.db
    ensures t.net.pc == Mark(r.net.pc.id, true) && t.net.scan == r.net.scan && t.net.conns != []
    ensures t.net.drained == r.net.drained && t.net.gaveUp == r.net.gaveUp
    ensures Current(t.net.conns).bytes == Current(r.net.conns).bytes + LineOf(cfg, r.net.pc.item)
  {
    var line := LineOf(cfg, r.net.pc.item);
    t := Step(cfg, true, r, Accept(|line|));
    assert line[0..|line|] == line;
    assert t == SendStep(cfg, r, Accept(|line|));
  }

  /** A row whose line goes out whole. */
  lemma SentRow(cfg: Settings, p: Proto, s: Progress, n: nat, q: Proto, o: Outcome, acts: seq<Act>)
    returns (more: seq<Act>)
    requires Fits(cfg) && AtPass(cfg, p, s, n, q) && Untouched(p.db.rows, s.rows, s.upto)
    requires cfg.batchMax < 0 || n < cfg.batchMax
    requires Waiting(s.rows, s.upto, cfg.retryMax) != {} && o.ok
    requires PieceOk(LineOf(cfg, s.rows[Least(Waiting(s.rows, s.upto, cfg.retryMax))].payload), o)
    requires q == Steps(cfg, p, acts)
    ensures AtPass(cfg, p, TryNext(s, o, cfg.retryMax), n + 1, Steps(cfg, p, more))
  {
    var id := Least(Waiting(s.rows, s.upto, cfg.retryMax));
    var r := ReadsNext(cfg, p, s, n, q, id);
    var t := SendsWhole(cfg, r);
    var u := Step(cfg, true, t, Go);
    OneMore(cfg, p, acts, NextRow(id));
    var acts1 := acts + [NextRow(id)];
    var accept := Accept(|LineOf(cfg, r.net.pc.item)|);
    OneMore(cfg, p, acts1, accept);
    OneMore(cfg, p, acts1 + [accept], Go);
    more := acts1 + [accept] + [Go];
    SentStands(cfg, p, s, n, o, t, u);
  }

  lemma SentStands(cfg: Settings, p: Proto, s: Progress, n: nat, o: Outcome, t: Proto, u: Proto)
    requires Waiting(s.rows, s.upto, cfg.retryMax) != {} && o.ok && !s.failed && p.net.conns != []
    requires
      var id := Least(Waiting(s.rows, s.upto, cfg.retryMax));
      t.net.pc == Mark(id, true) && t.net.conns != [] && t.db == Table(s.rows, p.db.nextId) &&
      t.net.scan == Scan(id, Left(cfg.batchMax, n + 1), p.db.rows, p.db.nextId) &&
      t.net.drained && t.net.gaveUp == p.net.gaveUp &&
      Current(t.net.conns).bytes == (Current(p.net.conns).bytes + Pieces(s.tries)) + o.piece
    requires u == Step(cfg, true, t, Go)
    ensures AtPass(cfg, p, TryNext(s, o, cfg.retryMax), n + 1, u)
  {
    var id := Least(Waiting(s.rows, s.upto, cfg.retryMax));
    TrySnoc(s.tries, Try(id, o));
    Associative(Current(p.net.conns).bytes, Pieces(s.tries), o.piece);
    TryNextTable(s, o, p.db.nextId, cfg.retryMax);
    assert u.db == Marked(t.db, id);
  }

  /** Part of a line, or none of it, and then the failure. */
  lemma SendsPart(cfg: Settings, r: Proto, k: nat, acts: seq<Act>, p: Proto) returns (more: seq<Act>)
    requires r.net.pc.Send? && r.net.pc.k == 0 && r.net.pc.drain && r.net.conns != []
    requires k < |LineOf(cfg, r.net.pc.item)| && r == Steps(cfg, p, acts)
    ensures
      var t := Steps(cfg, p, more);
      t.db == r.db && t.net.pc == Fail(r.net.pc.id, true) && t.net.conns != [] &&
      Current(t.net.conns).bytes == Current(r.net.conns).bytes + LineOf(cfg, r.net.pc.item)[..k]
  {
    var line := LineOf(cfg, r.net.pc.item);
    assert line[0..k] == line[..k];
    if k == 0 {
      OneMore(cfg, p, acts, Break);
      more := acts + [Break];
      assert Step(cfg, true, r, Break) == SendStep(cfg, r, Break);
    } else {
      var t := Step(cfg, true, r, Accept(k));
      assert t == SendStep(cfg, r, Accept(k));
      assert t.db == r.db && t.net.pc == r.net.pc.(k := k) && t.net.conns != [];
      OneMore(cfg, p, acts, Accept(k));
      OneMore(cfg, p, acts + [Accept(k)], Break);
      more := acts + [Accept(k)] + [Break];
      assert Step(cfg, true, t, Break) == SendStep(cfg, t, Break);
    }
  }

  /** The machine after a pass that a failed send ended. */
  ghost predicate AfterFailure(p: Proto, s: Progress, q: Proto) {
    p.net.conns != [] && q.net.conns != [] && q.net.pc == Query(true) && s.failed &&
    q.db == Table(s.rows, p.db.nextId) &&
    Current(q.net.conns).bytes == Current(p.net.conns).bytes + Pieces(s.tries)
  }

  /** A row whose send fails. */
  lemma FailedRow(cfg: Settings, p: Proto, s: Progress, n: nat, q: Proto, o: Outcome, acts: seq<Act>)
    returns (more: seq<Act>)
    requires Fits(cfg) && AtPass(cfg, p, s, n, q) && Untouched(p.db.rows, s.rows, s.upto)
    requires cfg.batchMax < 0 || n < cfg.batchMax
    requires Waiting(s.rows, s.upto, cfg.retryMax) != {} && !o.ok
    requires PieceOk(LineOf(cfg, s.rows[Least(Waiting(s.rows, s.upto, cfg.retryMax))].payload), o)
    requires q == Steps(cfg, p, acts)
    ensures AfterFailure(p, TryNext(s, o, cfg.retryMax), Steps(cfg, p, more))
  {
    var id := Least(Waiting(s.rows, s.upto, cfg.retryMax));
    var r := ReadsNext(cfg, p, s, n, q, id);
    OneMore(cfg, p, acts, NextRow(id));
    var failed := SendsPart(cfg, r, |o.piece|, acts + [NextRow(id)], p);
    var t := Steps(cfg, p, failed);
    OneMore(cfg, p, failed, Go);
    more := failed + [Go];
    FailedStands(cfg, p, s, o, t, Step(cfg, true, t, Go));
  }

  lemma FailedStands(cfg: Settings, p: Proto, s: Progress, o: Outcome, t: Proto, u: Proto)
    requires Waiting(s.rows, s.upto, cfg.retryMax) != {} && !o.ok && !s.failed && p.net.conns != []
    requires
      var id := Least(Waiting(s.rows, s.upto, cfg.retryMax));
      t.net.pc == Fail(id, true) && t.net.conns != [] && t.db == Table(s.rows, p.db.nextId) &&
      Current(t.net.conns).bytes == (Current(p.net.conns).bytes + Pieces(s.tries)) + o.piece
    requires u == Step(cfg, true, t, Go)
    ensures AfterFailure(p, TryNext(s, o, cfg.retryMax), u)
  {
    var id := Least(Waiting(s.rows, s.upto, cfg.retryMax));
    TrySnoc(s.tries, Try(id, o));
    Associative(Current(p.net.conns).bytes, Pieces(s.tries), o.piece);
    TryNextTable(s, o, p.db.nextId, cfg.retryMax);
    assert u.db == Retried(t.db, id);
  }

  /** The lines the machine sends. */
  function MachineLines(cfg: Settings): Item -> string {
    (item: Item) => LineOf(cfg, item)
  }

  /** Each outcome belongs to a row the pass found, and is what sending that row's line can come to. */
  ghost predicate Possible(cfg: Settings, start: Rows, outcomes: seq<Outcome>) {
    var s := Pass(start, outcomes, cfg.retryMax);
    |s.tries| == |outcomes| && TriesOk(MachineLines(cfg), start, s.tries) &&
    (cfg.batchMax < 0 || |outcomes| <= cfg.batchMax)
  }

  lemma PossibleBefore(cfg: Settings, start: Rows, outcomes: seq<Outcome>)
    requires Possible(cfg, start, outcomes) && outcomes != [] && forall id :: id in start ==> id >= 1
    ensures
      var before, o := outcomes[..|outcomes| - 1], outcomes[|outcomes| - 1];
      var s := Pass(start, before, cfg.retryMax);
      Possible(cfg, start, before) && !s.failed && Waiting(s.rows, s.upto, cfg.retryMax) != {} &&
      Untouched(start, s.rows, s.upto) &&
      PieceOk(LineOf(cfg, s.rows[Least(Waiting(s.rows, s.upto, cfg.retryMax))].payload), o)
  {
    var before, o := outcomes[..|outcomes| - 1], outcomes[|outcomes| - 1];
    var s, t := Pass(start, before, cfg.retryMax), Pass(start, outcomes, cfg.retryMax);
    FewTries(start, before, cfg.retryMax);
    TriedLast(s, o, t, cfg.retryMax);
    var id := Least(Waiting(s.rows, s.upto, cfg.retryMax));
    TriesBefore(MachineLines(cfg), start, s.tries, Try(id, o));
    UntouchedBefore(start, before, cfg.retryMax);
    assert id in Waiting(s.rows, s.upto, cfg.retryMax);
    assert MachineLines(cfg)(start[id].payload) == LineOf(cfg, start[id].payload);
  }

  /** A try was added, so there was a row to try. */
  lemma TriedLast(s: Progress, o: Outcome, t: Progress, retryMax: int)
    requires t == TryNext(s, o, retryMax) && |t.tries| > |s.tries|
    ensures !s.failed && Waiting(s.rows, s.upto, retryMax) != {}
    ensures t.tries == s.tries + [Try(Least(Waiting(s.rows, s.upto, retryMax)), o)]
  {
  }

  lemma TriesBefore(line: Item -> string, start: Rows, tries: seq<Try>, t: Try)
    requires TriesOk(line, start, tries + [t])
    ensures TriesOk(line, start, tries) && t.id in start && PieceOk(line(start[t.id].payload), t.outcome)
  {
    assert (tries + [t])[|tries|] == t;
    forall i | 0 <= i < |tries|
      ensures tries[i].id in start && PieceOk(line(start[tries[i].id].payload), tries[i].outcome)
    {
      assert (tries + [t])[i] == tries[i];
    }
  }

  lemma UntouchedBefore(start: Rows, outcomes: seq<Outcome>, retryMax: int)
    requires forall id :: id in start ==> id >= 1
    ensures
      var s := Pass(start, outcomes, retryMax);
      !s.failed ==> Untouched(start, s.rows, s.upto)
  {
    PassAccounts(start, outcomes, retryMax);
  }

  lemma {:induction false} FewTries(start: Rows, outcomes: seq<Outcome>, retryMax: int)
    ensures |Pass(start, outcomes, retryMax).tries| <= |outcomes|
    decreases |outcomes|
  {
    if outcomes != [] {
      FewTries(start, outcomes[..|outcomes| - 1], retryMax);
    }
  }

  /** The machine stands where the pass does after these steps. */
  ghost predicate IsRun(cfg: Settings, p: Proto, outcomes: seq<Outcome>, acts: seq<Act>) {
    var s, q := Pass(p.db.rows, outcomes, cfg.retryMax), Steps(cfg, p, acts);
    if s.failed then AfterFailure(p, s, q) else AtPass(cfg, p, s, |outcomes|, q)
  }

  /** One row more. */
  lemma RowIsRun(cfg: Settings, p: Proto, outcomes: seq<Outcome>, acts: seq<Act>) returns (more: seq<Act>)
    requires Fits(cfg) && p.net.conns != [] && Wellformed(p.db)
    requires Possible(cfg, p.db.rows, outcomes) && outcomes != []
    requires IsRun(cfg, p, outcomes[..|outcomes| - 1], acts)
    ensures IsRun(cfg, p, outcomes, more)
  {
    var before, o := outcomes[..|outcomes| - 1], outcomes[|outcomes| - 1];
    PossibleBefore(cfg, p.db.rows, outcomes);
    var s := Pass(p.db.rows, before, cfg.retryMax);
    if o.ok {
      more := SentRow(cfg, p, s, |before|, Steps(cfg, p, acts), o, acts);
    } else {
      more := FailedRow(cfg, p, s, |before|, Steps(cfg, p, acts), o, acts);
    }
  }

  /** Every pass of the imperative drain is a run of the machine: same table, same bytes on the
      connection, and the machine is back at its query if a send failed and at its next read if not. */
  lemma {:induction false} PassIsRun(cfg: Settings, p: Proto, outcomes: seq<Outcome>) returns (acts: seq<Act>)
    requires Fits(cfg) && p.net.pc == Query(true) && p.net.conns != [] && Wellformed(p.db)
    requires Possible(cfg, p.db.rows, outcomes)
    ensures IsRun(cfg, p, outcomes, acts)
    decreases |outcomes|
  {
    if outcomes == [] {
      OneMore(cfg, p, [], Go);
      acts := [] + [Go];
      PassBegins(cfg, p);
    } else {
      var before := outcomes[..|outcomes| - 1];
      PossibleBefore(cfg, p.db.rows, outcomes);
      var a := PassIsRun(cfg, p, before);
      acts := RowIsRun(cfg, p, outcomes, a);
    }
  }

  /** How a pass without a failed send ends: at its last row or its limit, or because reading the next
      row failed. If it had a row the machine queries again, whatever ended it; if not the drain is
      over, and only a failed read leaves it unfinished. */
  lemma PassEnds(cfg: Settings, p: Proto, s: Progress, n: nat, q: Proto, failed: bool) returns (r: Proto)
    requires AtPass(cfg, p, s, n, q)
    requires failed || Left(cfg.batchMax, n) == 0 || Waiting(s.rows, s.upto, cfg.retryMax) == {}
    ensures r == Step(cfg, true, q, if failed then ReadFails else EndOfRows)
    ensures r.db == q.db && r.net.conns == q.net.conns
    ensures r.net.pc == (if n > 0 then Query(true) else Done)
    ensures r.net.gaveUp <==> p.net.gaveUp || (n == 0 && failed)
  {
    r := Step(cfg, true, q, if failed then ReadFails else EndOfRows);
    if !failed {
      NothingWaits(s, cfg.retryMax);
      assert CanEnd(cfg, q);
    }
  }

  /** A query of the drain that cannot be prepared ends it, and leaves it unfinished. */
  lemma QueryUnanswered(cfg: Settings, p: Proto) returns (r: Proto)
    requires p.net.pc == Query(true)
    ensures r == Step(cfg, true, p, QueryFails) && r.db == p.db && r.net.conns == p.net.conns
    ensures r.net.pc.Done? && r.net.gaveUp
  {
    r := Step(cfg, true, p, QueryFails);
  }

  lemma NothingWaits(s: Progress, retryMax: int)
    ensures Waiting(s.rows, s.upto, retryMax) == {} ==>
      forall x :: x in s.rows && s.upto < x ==> !IsPending(s.rows[x], retryMax)
  {
    forall x | x in s.rows && s.upto < x && Waiting(s.rows, s.upto, retryMax) == {}
      ensures !IsPending(s.rows[x], retryMax)
    {
      assert x !in Waiting(s.rows, s.upto, retryMax);
    }
  }

  lemma PassBegins(cfg: Settings, p: Proto)
    requires p.net.pc == Query(true) && p.net.conns != []
    ensures AtPass(cfg, p, Progress(p.db.rows, [], 0, false), 0, Step(cfg, true, p, Go))
  {
    var bytes := Current(p.net.conns).bytes;
    assert bytes + "" == bytes;
  }
}
