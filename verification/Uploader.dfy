/** Sending lines and draining the table (app/src/uploader.c), run alone. */
module Uploader {
  import opened Options
  import opened Json
  import opened Tables
  import opened Sequences
  import opened UploadProtocol

  /** A connected socket: send accepts any non-empty prefix, or fails. What it has answered so far,
      call by call, is recorded. */
  class Socket {
    var wire: string
    ghost var answers: seq<int>

    constructor ()
      ensures wire == "" && answers == []
    {
      wire := "";
      answers := [];
    }

    method Send(data: string) returns (n: int)
      requires data != []
      modifies this
      ensures n <= |data|
      ensures wire == old(wire) + if n > 0 then data[..n] else ""
      ensures answers == old(answers) + [n]
    {
      n := *;
      if n > |data| {
        n := |data|;
      }
      if n > 0 {
        wire := wire + data[..n];
      }
      answers := answers + [n];
    }
  }

  /** How many of these sends failed. */
  function FailedSends(answers: seq<int>): nat
    decreases |answers|
  {
    if answers == [] then 0
    else FailedSends(answers[..|answers| - 1]) + if answers[|answers| - 1] <= 0 then 1 else 0
  }

  lemma AnswerSnoc(answers: seq<int>, n: int)
    ensures FailedSends(answers + [n]) == FailedSends(answers) + if n <= 0 then 1 else 0
  {
    assert (answers + [n])[..|answers|] == answers;
  }

  /** uploader_send_line: all of the data goes out, or a proper prefix of it. It gives up exactly when
      a send fails, which is then its last one; a short write only makes it go on. */
  method SendLine(sock: Socket, data: string) returns (rc: int, ghost sent: nat)
    modifies sock
    ensures rc == 0 || rc == -1
    ensures sent <= |data| && (rc == 0 <==> sent == |data|)
    ensures sock.wire == old(sock.wire) + data[..sent]
    ensures FailedSends(sock.answers) == FailedSends(old(sock.answers)) + if rc == -1 then 1 else 0
    ensures rc == -1 ==> sock.answers != [] && sock.answers[|sock.answers| - 1] <= 0
  {
    var k := 0;
    while k < |data|
      invariant 0 <= k <= |data|
      invariant sock.wire == old(sock.wire) + data[..k]
      invariant FailedSends(sock.answers) == FailedSends(old(sock.answers))
    {
      ghost var answers := sock.answers;
      var n := sock.Send(data[k..]);
      AnswerSnoc(answers, n);
      if n <= 0 {
        return -1, k;
      }
      assert data[..k] + data[k..][..n] == data[..k + n];
      k := k + n;
    }
    return 0, k;
  }

  // ---------------------------------------------------------------------------------------
  // How much a drain can still do
  // ---------------------------------------------------------------------------------------

  /** How many more failed sends a row can take. */
  function Budget(r: Row<Item>, retryMax: int): nat {
    if IsPending(r, retryMax) then retryMax - r.retry else 0
  }

  function Work(rows: Rows, retryMax: int): nat
    decreases |rows|
  {
    if rows == map[] then 0
    else
      var id := Least(rows.Keys);
      assert |rows - {id}| < |rows| by {
        Remaining(rows, {id});
      }
      Budget(rows[id], retryMax) + Work(rows - {id}, retryMax)
  }

  lemma {:induction false} WorkAfterUpdate(rows: Rows, id: nat, r: Row<Item>, retryMax: int)
    requires id in rows
    ensures Work(rows[id := r], retryMax) == Work(rows, retryMax) - Budget(rows[id], retryMax) + Budget(r, retryMax)
    decreases |rows|
  {
    var updated := rows[id := r];
    assert updated.Keys == rows.Keys;
    var first := Least(rows.Keys);
    if first == id {
      assert updated - {id} == rows - {id};
    } else {
      Remaining(rows, {first});
      assert updated - {first} == (rows - {first})[id := r];
      WorkAfterUpdate(rows - {first}, id, r, retryMax);
    }
  }

  /** The rows the query would still return after id last. */
  function Waiting(rows: Rows, last: nat, retryMax: int): set<nat> {
    set id | id in rows && id > last && IsPending(rows[id], retryMax)
  }

  predicate Ascending(ids: seq<nat>) {
    forall i, j :: 0 <= i < j < |ids| ==> ids[i] < ids[j]
  }

  /** Only the upload columns of pending rows may differ, and only forwards. */
  predicate Progressed(before: Rows, after: Rows, retryMax: int) {
    after.Keys == before.Keys &&
    forall id :: id in before ==>
      after[id].payload == before[id].payload && after[id].retry >= before[id].retry &&
      (before[id].uploaded ==> after[id].uploaded) &&
      (!IsPending(before[id], retryMax) ==> after[id] == before[id]) &&
      (IsPending(before[id], retryMax) ==> after[id].retry <= retryMax)
  }

  /** The rows marked since start are exactly those in sent, in id order; they were pending, and
      no row up to the mark upto still is. */
  predicate Accounted(start: Rows, rows: Rows, sent: seq<nat>, upto: nat, retryMax: int) {
    Progressed(start, rows, retryMax) && Settled(rows, upto, retryMax) && Ascending(sent) &&
    (forall id :: id in sent ==> id <= upto && id in start && IsPending(start[id], retryMax)) &&
    (forall id :: id in start ==> (rows[id].uploaded <==> start[id].uploaded || id in sent))
  }

  /** Rows after last are still as they were at the start of the pass. */
  predicate Untouched(start: Rows, rows: Rows, last: nat) {
    rows.Keys == start.Keys && forall id :: id in start && id > last ==> rows[id] == start[id]
  }

  lemma SettledTo(rows: Rows, last: nat, id: nat, retryMax: int)
    requires Settled(rows, last, retryMax)
    requires Waiting(rows, last, retryMax) != {} && id == Least(Waiting(rows, last, retryMax))
    ensures Settled(rows[id := rows[id].(uploaded := true)], id, retryMax)
  {
    var after := rows[id := rows[id].(uploaded := true)];
    forall x | x in after && x <= id
      ensures !IsPending(after[x], retryMax)
    {
      if last < x < id {
        assert x !in Waiting(rows, last, retryMax);
      }
    }
  }

  lemma AscendingSnoc(ids: seq<nat>, id: nat)
    requires Ascending(ids) && forall x :: x in ids ==> x < id
    ensures Ascending(ids + [id])
  {
    forall i, j | 0 <= i < j < |ids + [id]|
      ensures (ids + [id])[i] < (ids + [id])[j]
    {
      assert ids[i] in ids;
    }
  }

  lemma MarkedProgress(start: Rows, rows: Rows, id: nat, retryMax: int)
    requires Progressed(start, rows, retryMax) && id in rows && IsPending(start[id], retryMax)
    ensures Progressed(start, rows[id := rows[id].(uploaded := true)], retryMax)
  {
  }

  lemma MarkedStep(start: Rows, rows: Rows, sent: seq<nat>, last: nat, id: nat, retryMax: int)
    requires Accounted(start, rows, sent, last, retryMax) && Untouched(start, rows, last)
    requires Waiting(rows, last, retryMax) != {} && id == Least(Waiting(rows, last, retryMax))
    ensures
      var after := rows[id := rows[id].(uploaded := true)];
      Accounted(start, after, sent + [id], id, retryMax) && Untouched(start, after, id) &&
      Work(after, retryMax) < Work(rows, retryMax)
  {
    assert id in Waiting(rows, last, retryMax);
    assert rows[id] == start[id];
    SettledTo(rows, last, id, retryMax);
    MarkedProgress(start, rows, id, retryMax);
    AscendingSnoc(sent, id);
    WorkAfterUpdate(rows, id, rows[id].(uploaded := true), retryMax);
    assert forall x :: x in sent + [id] <==> x in sent || x == id;
  }

  lemma FailedStep(start: Rows, rows: Rows, sent: seq<nat>, last: nat, id: nat, retryMax: int)
    requires Accounted(start, rows, sent, last, retryMax) && Untouched(start, rows, last)
    requires id in Waiting(rows, last, retryMax)
    ensures
      var after := rows[id := rows[id].(retry := rows[id].retry + 1)];
      Accounted(start, after, sent, last, retryMax) && Work(after, retryMax) < Work(rows, retryMax)
  {
    var after := rows[id := rows[id].(retry := rows[id].retry + 1)];
    WorkAfterUpdate(rows, id, after[id], retryMax);
  }

  lemma AccountedTwice(start: Rows, mid: Rows, rows: Rows, sent: seq<nat>, more: seq<nat>, a: nat, b: nat,
                       retryMax: int)
    requires Accounted(start, mid, sent, a, retryMax) && Accounted(mid, rows, more, b, retryMax)
    ensures Accounted(start, rows, sent + more, if a < b then b else a, retryMax)
  {
    forall i, j | 0 <= i < |sent| && 0 <= j < |more|
      ensures sent[i] < more[j]
    {
      assert sent[i] in sent && more[j] in more;
    }
    assert forall x :: x in sent + more <==> x in sent || x in more;
  }

  // ---------------------------------------------------------------------------------------
  // What went out
  // ---------------------------------------------------------------------------------------

  /** What sending a line came to: whether all of it went out, and what did. */
  datatype Outcome = Outcome(ok: bool, piece: string)

  datatype Try = Try(id: nat, outcome: Outcome)

  predicate PieceOk(line: string, o: Outcome) {
    if o.ok then o.piece == line else |o.piece| < |line| && o.piece == line[..|o.piece|]
  }

  /** Everything the tries put on the socket. */
  function Pieces(tries: seq<Try>): string
    decreases |tries|
  {
    if tries == [] then "" else Pieces(tries[..|tries| - 1]) + tries[|tries| - 1].outcome.piece
  }

  /** The ids whose line went out completely. */
  function SentIds(tries: seq<Try>): seq<nat>
    decreases |tries|
  {
    if tries == [] then []
    else SentIds(tries[..|tries| - 1]) + if tries[|tries| - 1].outcome.ok then [tries[|tries| - 1].id] else []
  }

  /** How many tries of a row failed. */
  function Failures(tries: seq<Try>, id: nat): nat
    decreases |tries|
  {
    if tries == [] then 0
    else
      var t := tries[|tries| - 1];
      Failures(tries[..|tries| - 1], id) + if t.id == id && !t.outcome.ok then 1 else 0
  }

  function FailedTries(tries: seq<Try>): nat
    decreases |tries|
  {
    if tries == [] then 0 else FailedTries(tries[..|tries| - 1]) + if tries[|tries| - 1].outcome.ok then 0 else 1
  }

  /** Every try put its row's own line on the socket, or a proper prefix of it. */
  ghost predicate TriesOk(line: Item -> string, start: Rows, tries: seq<Try>) {
    forall i :: 0 <= i < |tries| ==> tries[i].id in start && PieceOk(line(start[tries[i].id].payload), tries[i].outcome)
  }

  /** Every failed try, and nothing else, is counted on its row. */
  ghost predicate RetriesCounted(start: Rows, rows: Rows, tries: seq<Try>) {
    rows.Keys == start.Keys && forall id :: id in start ==> rows[id].retry == start[id].retry + Failures(tries, id)
  }

  lemma TrySnoc(tries: seq<Try>, t: Try)
    ensures Pieces(tries + [t]) == Pieces(tries) + t.outcome.piece
    ensures SentIds(tries + [t]) == SentIds(tries) + if t.outcome.ok then [t.id] else []
    ensures FailedTries(tries + [t]) == FailedTries(tries) + if t.outcome.ok then 0 else 1
    ensures forall id ::
      Failures(tries + [t], id) == Failures(tries, id) + if t.id == id && !t.outcome.ok then 1 else 0
  {
    assert (tries + [t])[..|tries|] == tries;
  }

  lemma {:induction false} PiecesAppend(a: seq<Try>, b: seq<Try>)
    ensures Pieces(a + b) == Pieces(a) + Pieces(b)
    decreases |b|
  {
    if b == [] {
      assert a + b == a;
    } else {
      var init, t := b[..|b| - 1], b[|b| - 1];
      assert (a + b)[..|a + b| - 1] == a + init;
      PiecesAppend(a, init);
      Associative(Pieces(a), Pieces(init), t.outcome.piece);
    }
  }

  lemma {:induction false} SentIdsAppend(a: seq<Try>, b: seq<Try>)
    ensures SentIds(a + b) == SentIds(a) + SentIds(b)
    decreases |b|
  {
    if b == [] {
      assert a + b == a;
    } else {
      var init, t := b[..|b| - 1], b[|b| - 1];
      assert (a + b)[..|a + b| - 1] == a + init;
      SentIdsAppend(a, init);
      Associative(SentIds(a), SentIds(init), if t.outcome.ok then [t.id] else []);
    }
  }

  lemma {:induction false} FailedAppend(a: seq<Try>, b: seq<Try>)
    ensures FailedTries(a + b) == FailedTries(a) + FailedTries(b)
    decreases |b|
  {
    if b == [] {
      assert a + b == a;
    } else {
      assert (a + b)[..|a + b| - 1] == a + b[..|b| - 1];
      FailedAppend(a, b[..|b| - 1]);
    }
  }

  lemma {:induction false} FailuresAppend(a: seq<Try>, b: seq<Try>, id: nat)
    ensures Failures(a + b, id) == Failures(a, id) + Failures(b, id)
    decreases |b|
  {
    if b == [] {
      assert a + b == a;
    } else {
      var init := b[..|b| - 1];
      assert (a + b)[..|a + b| - 1] == a + init;
      FailuresAppend(a, init, id);
    }
  }

  lemma TriesAppend(a: seq<Try>, b: seq<Try>)
    ensures Pieces(a + b) == Pieces(a) + Pieces(b)
    ensures |SentIds(a + b)| == |SentIds(a)| + |SentIds(b)| && FailedTries(a + b) == FailedTries(a) + FailedTries(b)
  {
    PiecesAppend(a, b);
    SentIdsAppend(a, b);
    FailedAppend(a, b);
  }

  lemma CountedTwice(start: Rows, mid: Rows, rows: Rows, a: seq<Try>, b: seq<Try>)
    requires RetriesCounted(start, mid, a) && RetriesCounted(mid, rows, b)
    ensures RetriesCounted(start, rows, a + b)
  {
    forall id | id in start
      ensures rows[id].retry == start[id].retry + Failures(a + b, id)
    {
      FailuresAppend(a, b, id);
    }
  }

  lemma TriesTwice(line: Item -> string, start: Rows, mid: Rows, a: seq<Try>, b: seq<Try>)
    requires TriesOk(line, start, a) && TriesOk(line, mid, b) && mid.Keys == start.Keys
    requires forall id :: id in start ==> mid[id].payload == start[id].payload
    ensures TriesOk(line, start, a + b)
  {
  }

  // ---------------------------------------------------------------------------------------
  // One pass
  // ---------------------------------------------------------------------------------------

  /** How far a pass has got: the table, what was tried, the last id sent, and whether a send
      failed. */
  datatype Progress = Progress(rows: Rows, tries: seq<Try>, upto: nat, failed: bool)

  /** One more row of the query, with the outcome of sending it. */
  function TryNext(s: Progress, o: Outcome, retryMax: int): Progress {
    if s.failed || Waiting(s.rows, s.upto, retryMax) == {} then s
    else
      var id := Least(Waiting(s.rows, s.upto, retryMax));
      var row, tries := s.rows[id], s.tries + [Try(id, o)];
      if o.ok then Progress(s.rows[id := row.(uploaded := true)], tries, id, false)
      else Progress(s.rows[id := row.(retry := row.retry + 1)], tries, s.upto, true)
  }

  function Pass(start: Rows, outcomes: seq<Outcome>, retryMax: int): Progress
    decreases |outcomes|
  {
    if outcomes == [] then Progress(start, [], 0, false)
    else TryNext(Pass(start, outcomes[..|outcomes| - 1], retryMax), outcomes[|outcomes| - 1], retryMax)
  }

  /** The rows marked are those sent, at most one try failed, and it is counted as a retry. */
  ghost predicate PassOk(start: Rows, s: Progress, retryMax: int) {
    Accounted(start, s.rows, SentIds(s.tries), s.upto, retryMax) && RetriesCounted(start, s.rows, s.tries) &&
    FailedTries(s.tries) == (if s.failed then 1 else 0) && (!s.failed ==> Untouched(start, s.rows, s.upto))
  }

  lemma SentCounted(start: Rows, rows: Rows, tries: seq<Try>, id: nat, o: Outcome)
    requires RetriesCounted(start, rows, tries) && id in rows && o.ok
    ensures RetriesCounted(start, rows[id := rows[id].(uploaded := true)], tries + [Try(id, o)])
  {
    TrySnoc(tries, Try(id, o));
  }

  lemma FailedCounted(start: Rows, rows: Rows, tries: seq<Try>, id: nat, o: Outcome)
    requires RetriesCounted(start, rows, tries) && id in rows && !o.ok
    ensures RetriesCounted(start, rows[id := rows[id].(retry := rows[id].retry + 1)], tries + [Try(id, o)])
  {
    TrySnoc(tries, Try(id, o));
  }

  lemma SentRowOk(start: Rows, s: Progress, o: Outcome, next: Progress, retryMax: int)
    requires PassOk(start, s, retryMax) && !s.failed && Waiting(s.rows, s.upto, retryMax) != {} && o.ok
    requires next == TryNext(s, o, retryMax)
    ensures PassOk(start, next, retryMax) && Work(next.rows, retryMax) < Work(s.rows, retryMax)
  {
    var id := Least(Waiting(s.rows, s.upto, retryMax));
    MarkedStep(start, s.rows, SentIds(s.tries), s.upto, id, retryMax);
    SentCounted(start, s.rows, s.tries, id, o);
    TrySnoc(s.tries, Try(id, o));
  }

  lemma FailedRowOk(start: Rows, s: Progress, o: Outcome, id: nat, after: Rows, retryMax: int)
    requires PassOk(start, s, retryMax) && !s.failed && id in Waiting(s.rows, s.upto, retryMax) && !o.ok
    requires after == s.rows[id := s.rows[id].(retry := s.rows[id].retry + 1)]
    ensures PassOk(start, Progress(after, s.tries + [Try(id, o)], s.upto, true), retryMax)
  {
    FailedStep(start, s.rows, SentIds(s.tries), s.upto, id, retryMax);
    FailedCounted(start, s.rows, s.tries, id, o);
    SentIdsFailed(s.tries, Try(id, o));
  }

  lemma SentIdsFailed(tries: seq<Try>, t: Try)
    requires !t.outcome.ok
    ensures SentIds(tries + [t]) == SentIds(tries) && FailedTries(tries + [t]) == FailedTries(tries) + 1
  {
    TrySnoc(tries, t);
  }

  lemma FailedRow(start: Rows, s: Progress, o: Outcome, next: Progress, retryMax: int)
    requires PassOk(start, s, retryMax) && !s.failed && Waiting(s.rows, s.upto, retryMax) != {} && !o.ok
    requires next == TryNext(s, o, retryMax)
    ensures PassOk(start, next, retryMax) && Work(next.rows, retryMax) < Work(s.rows, retryMax)
  {
    var id := Least(Waiting(s.rows, s.upto, retryMax));
    FailedRowOk(start, s, o, id, next.rows, retryMax);
    FailedStep(start, s.rows, SentIds(s.tries), s.upto, id, retryMax);
  }

  /** Whatever the network does, a pass accounts for the rows it touches, and one that finds a row
      leaves less to do. */
  lemma {:induction false} PassAccounts(start: Rows, outcomes: seq<Outcome>, retryMax: int)
    requires forall id :: id in start ==> id >= 1
    ensures PassOk(start, Pass(start, outcomes, retryMax), retryMax)
    ensures Work(Pass(start, outcomes, retryMax).rows, retryMax) <= Work(start, retryMax)
    ensures outcomes != [] && Waiting(start, 0, retryMax) != {} ==>
      Work(Pass(start, outcomes, retryMax).rows, retryMax) < Work(start, retryMax)
    decreases |outcomes|
  {
    if outcomes == [] {
      assert Accounted(start, start, [], 0, retryMax);
    } else {
      var before := outcomes[..|outcomes| - 1];
      PassAccounts(start, before, retryMax);
      var s := Pass(start, before, retryMax);
      if !s.failed && Waiting(s.rows, s.upto, retryMax) != {} {
        var o := outcomes[|outcomes| - 1];
        if o.ok {
          SentRowOk(start, s, o, TryNext(s, o, retryMax), retryMax);
        } else {
          FailedRow(start, s, o, TryNext(s, o, retryMax), retryMax);
        }
      }
    }
  }

  /** Before is what the socket had carried, and the tries' pieces came on top of it. */
  ghost predicate WentOut(line: Item -> string, start: Rows, tries: seq<Try>, before: string, wire: string) {
    wire == before + Pieces(tries) && TriesOk(line, start, tries)
  }

  /** A pass that started on the rows start has got to s with these outcomes. */
  ghost predicate PassAt(line: Item -> string, start: Rows, outcomes: seq<Outcome>, s: Progress,
                         before: string, wire: string, retryMax: int) {
    s == Pass(start, outcomes, retryMax) && WentOut(line, start, s.tries, before, wire) && SamePayloads(start, s.rows)
  }

  /** How the uploader renders a row. */
  function LinesOf(device: string): Item -> string {
    (item: Item) => BuildJson(device, item.sample)
  }

  /** Every line fits the 512-byte buffer. */
  ghost predicate LinesFit(line: Item -> string) {
    forall item :: |line(item)| < 512
  }

  /** How the database answers a query: whether it can be prepared, and after how many rows, if any,
      reading the next one fails. */
  datatype Answer = Answer(prepared: bool, failsAfter: Option<nat>)

  /** The query gets as far as its first row, or its end. */
  predicate Answered(a: Answer) { a.prepared && a.failsAfter != Some(0) }

  /** A query ends, after n of the rows waiting, at the last of them, at its limit (none if negative)
      or where reading fails; an unfinished one has not gone past any of these. */
  predicate Stopped(waiting: nat, batchMax: int, failsAfter: Option<nat>, n: nat, complete: bool) {
    n <= waiting && (batchMax >= 0 ==> n <= batchMax) && (failsAfter.Some? ==> n <= failsAfter.value) &&
    (complete ==> n == waiting || n == batchMax || failsAfter == Some(n))
  }

  lemma OneMoreReturned(waiting: nat, left: nat, batchMax: int, failsAfter: Option<nat>, n: nat)
    requires left + n == waiting && left > 0 && (batchMax < 0 || n < batchMax) && failsAfter != Some(n)
    requires Stopped(waiting, batchMax, failsAfter, n, false)
    ensures Stopped(waiting, batchMax, failsAfter, n + 1, false)
  {
  }

  lemma RowsReturned(waiting: nat, batchMax: int, failsAfter: Option<nat>, n: nat, complete: bool)
    requires Stopped(waiting, batchMax, failsAfter, n, complete) && (complete || n > 0)
    ensures n > 0 <==> batchMax != 0 && failsAfter != Some(0) && waiting > 0
  {
  }

  class Uploads {
    const line: Item -> string
    const batchMax: int
    const retryMax: int
    var uploadedCount: nat
    var failedCount: nat

    constructor (device: string, batchMax: int, retryMax: int)
      requires DeviceName(device)
      ensures line == LinesOf(device) && LinesFit(line) && this.batchMax == batchMax && this.retryMax == retryMax
      ensures forall item: Item :: line(item) == BuildJson(device, item.sample)
      ensures uploadedCount == 0 && failedCount == 0
    {
      this.line, this.batchMax, this.retryMax := LinesOf(device), batchMax, retryMax;
      uploadedCount, failedCount := 0, 0;
      forall item: Item
        ensures |LinesOf(device)(item)| < 512
      {
        JsonFits(device, item.sample);
      }
    }

    /** Renders and sends one row. The source skips a row whose line overflows the buffer; that
        branch is dead, since the line always fits. */
    method SendRow(item: Item, sock: Socket) returns (rc: int, ghost o: Outcome)
      requires LinesFit(line)
      modifies sock
      ensures (rc == 0 || rc == -1) && (rc == 0 <==> o.ok)
      ensures PieceOk(line(item), o) && sock.wire == old(sock.wire) + o.piece
      ensures FailedSends(sock.answers) == FailedSends(old(sock.answers)) + if o.ok then 0 else 1
    {
      var json := line(item);
      assert |json| < 512;
      ghost var sent;
      rc, sent := SendLine(sock, json);
      o := Outcome(rc == 0, json[..sent]);
      assert json[..|json|] == json;
    }

    /** One row of a scan: marked if its whole line went out; its retry counted if a send failed. */
    method UploadRow(id: nat, db: Database<Item>, sock: Socket) returns (rc: int, ghost o: Outcome)
      requires LinesFit(line) && id in db.rows
      modifies this, db, sock
      ensures (rc == 0 || rc == -1) && (rc == 0 <==> o.ok)
      ensures PieceOk(line(old(db.rows)[id].payload), o) && sock.wire == old(sock.wire) + o.piece
      ensures FailedSends(sock.answers) == FailedSends(old(sock.answers)) + if o.ok then 0 else 1
      ensures db.Model() == if o.ok then Marked(old(db.Model()), id) else Retried(old(db.Model()), id)
      ensures uploadedCount == old(uploadedCount) + (if o.ok then 1 else 0)
      ensures failedCount == old(failedCount) + (if o.ok then 0 else 1)
    {
      rc, o := SendRow(db.rows[id].payload, sock);
      if rc != 0 {
        db.IncRetry(id);
        failedCount := failedCount + 1;
      } else {
        db.MarkUploaded(id);
        uploadedCount := uploadedCount + 1;
      }
    }

    /** One row of a pass, and where the pass then is. */
    method PassRow(id: nat, db: Database<Item>, sock: Socket,
                   ghost start: Rows, ghost outcomes: seq<Outcome>, ghost s: Progress, ghost before: string)
      returns (rc: int, ghost more: seq<Outcome>, ghost next: Progress)
      requires LinesFit(line) && PassAt(line, start, outcomes, s, before, sock.wire, retryMax) && db.rows == s.rows
      requires !s.failed && Waiting(s.rows, s.upto, retryMax) != {} && id == Least(Waiting(s.rows, s.upto, retryMax))
      modifies this, db, sock
      ensures |more| == |outcomes| + 1 && PassAt(line, start, more, next, before, sock.wire, retryMax)
      ensures db.rows == next.rows && db.nextId == old(db.nextId) && (rc != 0 <==> next.failed)
      ensures rc == 0 ==> next.upto == id && Work(db.rows, retryMax) < Work(old(db.rows), retryMax)
      ensures rc == 0 ==> |Waiting(db.rows, id, retryMax)| + 1 == |Waiting(old(db.rows), s.upto, retryMax)|
      ensures uploadedCount - |SentIds(next.tries)| == old(uploadedCount) - |SentIds(s.tries)|
      ensures failedCount - FailedTries(next.tries) == old(failedCount) - FailedTries(s.tries)
      ensures FailedSends(sock.answers) - FailedTries(next.tries) ==
        FailedSends(old(sock.answers)) - FailedTries(s.tries)
    {
      ghost var wire := sock.wire;
      ghost var o;
      rc, o := UploadRow(id, db, sock);
      next := RowTried(line, start, outcomes, s, o, before, wire, retryMax);
      TryNextTable(s, o, db.nextId, retryMax);
      more := outcomes + [o];
      assert db.Model() == Table(next.rows, db.nextId);
    }

    /** One pass of the drain: a query and the rows it returns, up to the first failed send or read.
        It tries all rows that are waiting, or as many as the limit or the reading allows, and less
        only if a send fails. What went out is the tries' pieces, each its row's line or a proper
        prefix of it. */
    method DrainPass(db: Database<Item>, sock: Socket, failsAfter: Option<nat>)
      returns (drained: bool, ghost outcomes: seq<Outcome>, ghost s: Progress)
      requires LinesFit(line)
      modifies this, db, sock
      ensures PassAt(line, old(db.rows), outcomes, s, old(sock.wire), sock.wire, retryMax)
      ensures db.rows == s.rows && db.nextId == old(db.nextId)
      ensures uploadedCount == old(uploadedCount) + |SentIds(s.tries)|
      ensures failedCount == old(failedCount) + FailedTries(s.tries)
      ensures FailedSends(sock.answers) == FailedSends(old(sock.answers)) + FailedTries(s.tries)
      ensures Stopped(|Waiting(old(db.rows), 0, retryMax)|, batchMax, failsAfter, |outcomes|, !s.failed)
      ensures drained <==> batchMax != 0 && failsAfter != Some(0) && Waiting(old(db.rows), 0, retryMax) != {}
      ensures drained <==> outcomes != []
    {
      drained, outcomes := false, [];
      ghost var start, before := db.rows, sock.wire;
      ghost var waiting := |Waiting(start, 0, retryMax)|;
      ghost var uploaded, failed, breaks := uploadedCount, failedCount, FailedSends(sock.answers);
      s := Progress(start, [], 0, false);
      var last := 0;
      var returned: nat := 0;
      var rows := Waiting(db.rows, last, retryMax);
      while rows != {} && (batchMax < 0 || returned < batchMax) && failsAfter != Some(returned)
        invariant rows == Waiting(db.rows, last, retryMax) && returned == |outcomes| && drained == (outcomes != [])
        invariant PassAt(line, start, outcomes, s, before, sock.wire, retryMax)
        invariant s.rows == db.rows && s.upto == last && !s.failed && db.nextId == old(db.nextId)
        invariant uploadedCount == uploaded + |SentIds(s.tries)|
        invariant failedCount == failed + FailedTries(s.tries)
        invariant FailedSends(sock.answers) == breaks + FailedTries(s.tries)
        invariant |rows| + returned == waiting && Stopped(waiting, batchMax, failsAfter, returned, false)
        decreases Work(db.rows, retryMax)
      {
        var id := Least(rows);
        OneMoreReturned(waiting, |rows|, batchMax, failsAfter, returned);
        returned := returned + 1;
        drained := true;
        var rc;
        rc, outcomes, s := PassRow(id, db, sock, start, outcomes, s, before);
        if rc != 0 {
          break;
        }
        last := id;
        rows := Waiting(db.rows, last, retryMax);
      }
      RowsReturned(waiting, batchMax, failsAfter, returned, !s.failed);
    }

    /** A query and its pass, on top of the tries before it. */
    method PassOnTop(db: Database<Item>, sock: Socket, answer: Answer,
                     ghost start: Rows, ghost tries: seq<Try>, ghost upto: nat, ghost wire: string)
      returns (drained: bool, ghost all: seq<Try>, ghost mark: nat)
      requires LinesFit(line) && Drained(line, start, db.rows, tries, upto, retryMax)
      requires (forall id :: id in start ==> id >= 1) && sock.wire == wire + Pieces(tries)
      modifies this, db, sock
      ensures db.nextId == old(db.nextId) && Drained(line, start, db.rows, all, mark, retryMax)
      ensures sock.wire == wire + Pieces(all)
      ensures uploadedCount - |SentIds(all)| == old(uploadedCount) - |SentIds(tries)|
      ensures failedCount - FailedTries(all) == old(failedCount) - FailedTries(tries)
      ensures FailedSends(sock.answers) - FailedTries(all) == FailedSends(old(sock.answers)) - FailedTries(tries)
      ensures drained <==> batchMax != 0 && Answered(answer) && Waiting(old(db.rows), 0, retryMax) != {}
      ensures if drained then Work(db.rows, retryMax) < Work(old(db.rows), retryMax)
              else db.rows == old(db.rows) && all == tries
    {
      if !answer.prepared {
        return false, tries, upto;
      }
      ghost var before := db.rows;
      ghost var outcomes;
      ghost var s;
      drained, outcomes, s := DrainPass(db, sock, answer.failsAfter);
      PassAccounts(before, outcomes, retryMax);
      PassAfter(line, start, before, tries, upto, s, retryMax);
      TriesAppend(tries, s.tries);
      Associative(wire, Pieces(tries), Pieces(s.tries));
      all, mark := tries + s.tries, if upto < s.upto then s.upto else upto;
      if !drained {
        assert s == Progress(before, [], 0, false);
      }
    }

    /** The drain after shutdown ends, and with a batch limit other than zero it ends with every
        row uploaded or out of retries: nothing pending is left behind, whatever the network does,
        unless it was the failure of its last query, number queried - 1, that ended it.
        What went out is the pieces of the tries, each its row's line or a proper prefix of it; the
        newly marked rows are exactly those whose line went out completely, in id order, and every
        failed try is counted on its row. */
    method Drain(db: Database<Item>, sock: Socket, answers: nat -> Answer)
      returns (queried: nat, ghost tries: seq<Try>, ghost upto: nat)
      requires LinesFit(line) && Wellformed(db.Model())
      modifies this, db, sock
      ensures db.nextId == old(db.nextId) && Drained(line, old(db.rows), db.rows, tries, upto, retryMax)
      ensures sock.wire == old(sock.wire) + Pieces(tries)
      ensures uploadedCount == old(uploadedCount) + |SentIds(tries)|
      ensures failedCount == old(failedCount) + FailedTries(tries)
      ensures FailedSends(sock.answers) == FailedSends(old(sock.answers)) + FailedTries(tries)
      ensures queried > 0
      ensures batchMax != 0 && Answered(answers(queried - 1)) ==>
        forall id :: id in db.rows ==> db.rows[id].uploaded || db.rows[id].retry >= retryMax
      ensures batchMax == 0 ==> db.rows == old(db.rows) && tries == []
    {
      queried, tries, upto := 0, [], 0;
      ghost var start, wire := db.rows, sock.wire;
      var drained := true;
      NothingTried(line, start, retryMax);
      while drained
        invariant db.nextId == old(db.nextId) && Drained(line, start, db.rows, tries, upto, retryMax)
        invariant sock.wire == wire + Pieces(tries)
        invariant uploadedCount == old(uploadedCount) + |SentIds(tries)|
        invariant failedCount == old(failedCount) + FailedTries(tries)
        invariant FailedSends(sock.answers) == FailedSends(old(sock.answers)) + FailedTries(tries)
        invariant !drained ==>
          queried > 0 && (batchMax != 0 && Answered(answers(queried - 1)) ==> Waiting(db.rows, 0, retryMax) == {})
        invariant batchMax == 0 ==> db.rows == start && tries == []
        decreases Work(db.rows, retryMax), drained
      {
        drained, tries, upto := PassOnTop(db, sock, answers(queried), start, tries, upto, wire);
        queried := queried + 1;
      }
      NothingLeft(db.rows, start, retryMax);
    }
  }

  lemma NothingTried(line: Item -> string, start: Rows, retryMax: int)
    requires forall id :: id in start ==> id >= 1
    ensures Drained(line, start, start, [], 0, retryMax)
  {
  }

  lemma NothingLeft(rows: Rows, start: Rows, retryMax: int)
    requires (forall id :: id in start ==> id >= 1) && rows.Keys == start.Keys
    ensures Waiting(rows, 0, retryMax) == {} ==>
      forall id :: id in rows ==> rows[id].uploaded || rows[id].retry >= retryMax
  {
    forall id | id in rows && Waiting(rows, 0, retryMax) == {}
      ensures rows[id].uploaded || rows[id].retry >= retryMax
    {
      assert id !in Waiting(rows, 0, retryMax);
    }
  }

  /** The rows newly marked are those sent completely, each failed try is counted on its row, and
      every try put its row's line or a proper prefix of it on the socket. */
  ghost predicate Drained(line: Item -> string, start: Rows, rows: Rows, tries: seq<Try>, upto: nat, retryMax: int) {
    Accounted(start, rows, SentIds(tries), upto, retryMax) && RetriesCounted(start, rows, tries) &&
    TriesOk(line, start, tries)
  }

  ghost predicate SamePayloads(start: Rows, rows: Rows) {
    rows.Keys == start.Keys && forall id :: id in start ==> rows[id].payload == start[id].payload
  }

  lemma PassSnoc(start: Rows, outcomes: seq<Outcome>, o: Outcome, retryMax: int)
    ensures Pass(start, outcomes + [o], retryMax) == TryNext(Pass(start, outcomes, retryMax), o, retryMax)
  {
    assert (outcomes + [o])[..|outcomes|] == outcomes;
  }

  lemma CountersSnoc(tries: seq<Try>, id: nat, o: Outcome)
    ensures |SentIds(tries + [Try(id, o)])| == |SentIds(tries)| + if o.ok then 1 else 0
    ensures FailedTries(tries + [Try(id, o)]) == FailedTries(tries) + if o.ok then 0 else 1
  {
    TrySnoc(tries, Try(id, o));
  }

  lemma WentOutMore(line: Item -> string, start: Rows, tries: seq<Try>, before: string, wire: string,
                    id: nat, o: Outcome)
    requires WentOut(line, start, tries, before, wire) && id in start && PieceOk(line(start[id].payload), o)
    ensures WentOut(line, start, tries + [Try(id, o)], before, wire + o.piece)
  {
    TrySnoc(tries, Try(id, o));
    Associative(before, Pieces(tries), o.piece);
  }

  lemma TryNextTable(s: Progress, o: Outcome, nextId: nat, retryMax: int)
    requires !s.failed && Waiting(s.rows, s.upto, retryMax) != {}
    ensures
      var id, t, next := Least(Waiting(s.rows, s.upto, retryMax)), Table(s.rows, nextId), TryNext(s, o, retryMax);
      Table(next.rows, nextId) == if o.ok then Marked(t, id) else Retried(t, id)
  {
    assert Least(Waiting(s.rows, s.upto, retryMax)) in s.rows;
  }

  /** What one more try changes. */
  lemma Tried(start: Rows, s: Progress, o: Outcome, next: Progress, retryMax: int)
    requires SamePayloads(start, s.rows) && !s.failed && Waiting(s.rows, s.upto, retryMax) != {}
    requires next == TryNext(s, o, retryMax)
    ensures
      var id := Least(Waiting(s.rows, s.upto, retryMax));
      id in start && next.tries == s.tries + [Try(id, o)] && (next.upto == if o.ok then id else s.upto) &&
      next.failed == !o.ok && SamePayloads(start, next.rows)
  {
    assert Least(Waiting(s.rows, s.upto, retryMax)) in Waiting(s.rows, s.upto, retryMax);
  }

  /** A row sent no longer waits, and the others do. */
  lemma OneFewer(s: Progress, o: Outcome, next: Progress, retryMax: int)
    requires !s.failed && Waiting(s.rows, s.upto, retryMax) != {} && o.ok && next == TryNext(s, o, retryMax)
    ensures |Waiting(next.rows, next.upto, retryMax)| + 1 == |Waiting(s.rows, s.upto, retryMax)|
  {
    var all := Waiting(s.rows, s.upto, retryMax);
    assert Waiting(next.rows, next.upto, retryMax) == all - {Least(all)};
  }

  lemma TriedLess(s: Progress, o: Outcome, next: Progress, retryMax: int)
    requires !s.failed && Waiting(s.rows, s.upto, retryMax) != {} && next == TryNext(s, o, retryMax)
    ensures Work(next.rows, retryMax) < Work(s.rows, retryMax)
  {
    var id := Least(Waiting(s.rows, s.upto, retryMax));
    assert id in Waiting(s.rows, s.upto, retryMax);
    WorkAfterUpdate(s.rows, id, next.rows[id], retryMax);
  }

  /** One row of a pass, seen from the pass: where the pass then is, and what has gone out. */
  lemma RowTried(line: Item -> string, start: Rows, outcomes: seq<Outcome>, s: Progress, o: Outcome,
                 before: string, wire: string, retryMax: int) returns (next: Progress)
    requires PassAt(line, start, outcomes, s, before, wire, retryMax)
    requires !s.failed && Waiting(s.rows, s.upto, retryMax) != {}
    requires PieceOk(line(s.rows[Least(Waiting(s.rows, s.upto, retryMax))].payload), o)
    ensures PassAt(line, start, outcomes + [o], next, before, wire + o.piece, retryMax) && next.failed == !o.ok
    ensures next == TryNext(s, o, retryMax)
    ensures
      var id := Least(Waiting(s.rows, s.upto, retryMax));
      next.upto == if o.ok then id else s.upto
    ensures |SentIds(next.tries)| == |SentIds(s.tries)| + if o.ok then 1 else 0
    ensures FailedTries(next.tries) == FailedTries(s.tries) + if o.ok then 0 else 1
    ensures Work(next.rows, retryMax) < Work(s.rows, retryMax)
    ensures o.ok ==> |Waiting(next.rows, next.upto, retryMax)| + 1 == |Waiting(s.rows, s.upto, retryMax)|
  {
    var id := Least(Waiting(s.rows, s.upto, retryMax));
    next := TryNext(s, o, retryMax);
    if o.ok {
      OneFewer(s, o, next, retryMax);
    }
    PassSnoc(start, outcomes, o, retryMax);
    CountersSnoc(s.tries, id, o);
    Tried(start, s, o, next, retryMax);
    WentOutMore(line, start, s.tries, before, wire, id, o);
    TriedLess(s, o, next, retryMax);
  }

  /** A pass on top of the passes before it. */
  lemma PassAfter(line: Item -> string, start: Rows, mid: Rows, tries: seq<Try>, upto: nat, s: Progress, retryMax: int)
    requires Drained(line, start, mid, tries, upto, retryMax)
    requires PassOk(mid, s, retryMax) && TriesOk(line, mid, s.tries)
    ensures Drained(line, start, s.rows, tries + s.tries, if upto < s.upto then s.upto else upto, retryMax)
  {
    SentIdsAppend(tries, s.tries);
    AccountedTwice(start, mid, s.rows, SentIds(tries), SentIds(s.tries), upto, s.upto, retryMax);
    CountedTwice(start, mid, s.rows, tries, s.tries);
    TriesTwice(line, start, mid, tries, s.tries);
  }
}
