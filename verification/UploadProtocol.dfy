/** The uploader thread against a table that another thread keeps changing (app/src/uploader.c,
    main loop and drain). Every SQL statement, send and flag test is one atomic step. Between any
    two of them the store thread may insert a row or delete any rows. */
module UploadProtocol {
  import opened Options
  import opened Samples
  import opened Json
  import opened Tables
  import opened Receiver

  /** A sample with the number of samples collected before it. */
  datatype Item = Item(tag: nat, sample: Sample)

  type Rows = map<nat, Row<Item>>

  /** How a row is rendered, without the newline, and the limits of the query. */
  datatype Settings = Settings(body: Item -> string, batchMax: int, retryMax: int)

  /** A completely sent line, and what an earlier failed send had left unfinished before it. */
  datatype Entry = Entry(id: nat, item: Item, before: string)

  /** A connection: what the kernel accepted on it, and the lines that completed. */
  datatype Conn = Conn(bytes: string, lines: seq<Entry>)

  /** A running SELECT: the last id it returned, how many rows the LIMIT still allows (negative
      for no limit), the rows when it began, and the first id handed out since. */
  datatype Scan = Scan(last: nat, left: int, visible: Rows, bound: nat)

  datatype Pc =
    | Check
    | Connect
    | Query(drain: bool)
    | ScanCheck
    | Read(drain: bool)
    | Send(id: nat, item: Item, k: nat, before: string, drain: bool)
    | Mark(id: nat, drain: bool)
    | Fail(id: nat, drain: bool)
    | Done

  /** broke records that a send has failed in the drain, gaveUp that a SELECT that failed ended it. */
  datatype Net = Net(pc: Pc, connected: bool, scan: Scan, drained: bool,
                     conns: seq<Conn>, log: seq<Entry>, broke: bool, gaveUp: bool)

  /** The table, everything ever inserted into it, and the uploader. */
  datatype Proto = Proto(db: Table<Item>, hist: map<nat, Item>, net: Net)

  const IDLE := Net(Check, false, Scan(0, 0, map[], 0), false, [], [], false, false)

  // ---------------------------------------------------------------------------------------
  // Steps
  // ---------------------------------------------------------------------------------------

  function LineOf(cfg: Settings, item: Item): string { cfg.body(item) + "\n" }

  /** Every row renders to one line that begins with a brace and fits the 512-byte buffer. */
  ghost predicate Fits(cfg: Settings) {
    forall item :: OneLine(cfg.body(item)) && |cfg.body(item)| + 1 < 512 && BeginsObject(cfg.body(item))
  }

  predicate BeginsObject(s: string) { s != "" && s[0] == '{' }

  /** The rendering the uploader uses. */
  ghost predicate Renders(cfg: Settings, device: string) {
    forall item :: cfg.body(item) == Body(device, item.sample)
  }

  lemma RendersFits(cfg: Settings, device: string)
    requires Renders(cfg, device) && DeviceName(device)
    ensures Fits(cfg)
  {
    forall item: Item
      ensures OneLine(cfg.body(item)) && |cfg.body(item)| + 1 < 512 && BeginsObject(cfg.body(item))
    {
      JsonFits(device, item.sample);
    }
  }

  function Current(conns: seq<Conn>): Conn
    requires conns != []
  {
    conns[|conns| - 1]
  }

  function WithCurrent(conns: seq<Conn>, c: Conn): seq<Conn>
    requires conns != []
  {
    conns[..|conns| - 1] + [c]
  }

  /** The row a running query may see under an id: as it was when the query began, or, if it was
      inserted later, as it is. */
  function Seen(scan: Scan, rows: Rows, id: nat): Option<Row<Item>> {
    if id <= scan.last then None
    else if id in scan.visible then Some(scan.visible[id])
    else if id >= scan.bound && id in rows then Some(rows[id])
    else None
  }

  /** No row strictly between two ids is pending. */
  ghost predicate NonePending(rows: Rows, above: nat, below: nat, retryMax: int) {
    forall x :: x in rows && above < x < below ==> !IsPending(rows[x], retryMax)
  }

  /** ORDER BY id: a row can be next only if no pending row still in the table is passed over. */
  ghost predicate CanRead(cfg: Settings, p: Proto, id: nat) {
    var scan := p.net.scan;
    scan.left != 0 && Seen(scan, p.db.rows, id).Some? && IsPending(Seen(scan, p.db.rows, id).value, cfg.retryMax) &&
    NonePending(p.db.rows, scan.last, id, cfg.retryMax)
  }

  /** A query ends at its limit or when no row it began with is still there and pending. */
  ghost predicate CanEnd(cfg: Settings, p: Proto) {
    p.net.scan.left == 0 || NonePending(p.db.rows, p.net.scan.last, p.net.scan.bound, cfg.retryMax)
  }

  /** What the environment decides: the outcome of connect, that the SELECT cannot be prepared, which
      row it returns next, that it ends or fails, how many bytes send accepts or that it fails. */
  datatype Act = Go | Refuse | QueryFails | NextRow(id: nat) | EndOfRows | ReadFails | Accept(n: nat) | Break

  function BeginScan(cfg: Settings, db: Table<Item>): Scan {
    Scan(0, cfg.batchMax, db.rows, db.nextId)
  }

  function AfterRow(drain: bool): Pc { if drain then Read(true) else ScanCheck }

  function Advanced(scan: Scan, id: nat): Scan {
    scan.(last := id, left := if scan.left > 0 then scan.left - 1 else scan.left)
  }

  /** Behind the loop over a query's rows, which returned them all or failed. */
  function EndScan(net: Net, complete: bool): Net
    requires net.pc.Read?
  {
    if !net.pc.drain then net.(pc := Check)
    else if net.drained then net.(pc := Query(true))
    else net.(pc := Done, gaveUp := net.gaveUp || !complete)
  }

  ghost function ReadStep(cfg: Settings, p: Proto, a: Act): Proto
    requires p.net.conns != [] && p.net.pc.Read?
  {
    var net := p.net;
    var drain := net.pc.drain;
    match a
    case NextRow(id) =>
      if !CanRead(cfg, p, id) then p
      else
        var item := Seen(net.scan, p.db.rows, id).value.payload;
        var pc :=
          if |LineOf(cfg, item)| >= 512 then AfterRow(drain)
          else Send(id, item, 0, Rest(Current(net.conns).bytes), drain);
        p.(net := net.(scan := Advanced(net.scan, id), drained := true, pc := pc))
    case EndOfRows =>
      if !CanEnd(cfg, p) then p else p.(net := EndScan(net, true))
    case ReadFails => p.(net := EndScan(net, false))
    case _ => p
  }

  /** send accepts n bytes of the line in hand. */
  function Accepted(cfg: Settings, net: Net, n: nat): Net
    requires net.conns != [] && net.pc.Send? && net.pc.k + n <= |LineOf(cfg, net.pc.item)|
  {
    var Send(id, item, k, before, drain) := net.pc;
    var line := LineOf(cfg, item);
    var c := Current(net.conns);
    var bytes := c.bytes + line[k..k + n];
    if k + n < |line| then
      net.(conns := WithCurrent(net.conns, c.(bytes := bytes)), pc := net.pc.(k := k + n))
    else
      var e := Entry(id, item, before);
      net.(conns := WithCurrent(net.conns, Conn(bytes, c.lines + [e])), log := net.log + [e], pc := Mark(id, drain))
  }

  function SendStep(cfg: Settings, p: Proto, a: Act): Proto
    requires p.net.conns != [] && p.net.pc.Send?
  {
    var net := p.net;
    match a
    case Accept(n) =>
      if n == 0 || net.pc.k + n > |LineOf(cfg, net.pc.item)| then p
      else p.(net := Accepted(cfg, net, n))
    case Break =>
      p.(net := net.(pc := Fail(net.pc.id, net.pc.drain), broke := net.broke || net.pc.drain))
    case _ => p
  }

  /** One step of the uploader thread; an action that does not fit the program counter is idle. */
  ghost function Step(cfg: Settings, shutdown: bool, p: Proto, a: Act): Proto {
    var net := p.net;
    match net.pc
    case Check =>
      if shutdown then p.(net := net.(pc := if net.connected then Query(true) else Done))
      else p.(net := net.(pc := if net.connected then Query(false) else Connect))
    case Connect =>
      if a == Go then p.(net := net.(connected := true, conns := net.conns + [Conn("", [])], pc := Query(false)))
      else if a == Refuse then p.(net := net.(pc := Check))
      else p
    case Query(drain) =>
      if a == QueryFails then p.(net := if drain then net.(pc := Done, gaveUp := true) else net.(pc := Check))
      else p.(net := net.(scan := BeginScan(cfg, p.db), drained := false, pc := AfterRow(drain)))
    case ScanCheck => p.(net := net.(pc := if shutdown then Check else Read(false)))
    case Read(_) => if net.conns == [] then p else ReadStep(cfg, p, a)
    case Send(_, _, _, _, _) => if net.conns == [] then p else SendStep(cfg, p, a)
    case Mark(id, drain) => p.(db := Marked(p.db, id), net := net.(pc := AfterRow(drain)))
    case Fail(id, drain) =>
      if drain then p.(db := Retried(p.db, id), net := net.(pc := Query(true)))
      else p.(db := Retried(p.db, id), net := net.(connected := false, pc := Check))
    case Done => p
  }

  function EnvInsert(p: Proto, item: Item): Proto {
    p.(db := Inserted(p.db, item), hist := p.hist[p.db.nextId := item])
  }

  function EnvDelete(p: Proto, gone: set<nat>): Proto {
    p.(db := p.db.(rows := p.db.rows - gone))
  }

  // ---------------------------------------------------------------------------------------
  // What every step keeps about the table, the running query and the lines sent
  // ---------------------------------------------------------------------------------------

  predicate InDrain(pc: Pc) {
    (pc.Query? || pc.Read? || pc.Send? || pc.Mark? || pc.Fail?) && pc.drain
  }

  predicate Scanning(pc: Pc) { pc.ScanCheck? || pc.Read? || pc.Send? || pc.Mark? || pc.Fail? }

  /** The row the uploader has in hand. */
  function Hand(pc: Pc): Option<nat> {
    match pc
    case Send(id, _, _, _, _) => Some(id)
    case Mark(id, _) => Some(id)
    case Fail(id, _) => Some(id)
    case _ => None
  }

  function LastId(log: seq<Entry>): nat { if log == [] then 0 else log[|log| - 1].id }

  /** Rows carry what was inserted under their id, and have not been tried more often than allowed. */
  ghost predicate TableOk(db: Table<Item>, hist: map<nat, Item>, retryMax: int) {
    Wellformed(db) && (forall id :: id in hist ==> id < db.nextId) &&
    forall id :: id in db.rows ==> id in hist && db.rows[id].payload == hist[id] && db.rows[id].retry <= retryMax
  }

  /** Every row up to mark is uploaded or out of retries, except the one in hand. */
  ghost predicate SettledBut(rows: Rows, mark: nat, hand: Option<nat>, retryMax: int) {
    forall id :: id in rows && id <= mark ==> !IsPending(rows[id], retryMax) || hand == Some(id)
  }

  /** The running query remembers rows as they were inserted. */
  ghost predicate Known(scan: Scan, hist: map<nat, Item>, nextId: nat) {
    scan.last < nextId && scan.bound <= nextId &&
    forall id :: id in scan.visible ==> id < scan.bound && id in hist && scan.visible[id].payload == hist[id]
  }

  /** What the query has yet to return is as it was when it began, if it is still there, and it
      began with every row there is below its bound. */
  ghost predicate Fresh(scan: Scan, rows: Rows) {
    (forall id :: id in rows && id < scan.bound ==> id in scan.visible) &&
    forall id :: id in scan.visible && id in rows && id > scan.last ==> rows[id] == scan.visible[id]
  }

  /** What the query can still return lies above the last line sent. */
  ghost predicate Above(scan: Scan, sent: nat, retryMax: int) {
    (sent <= scan.last || sent < scan.bound) &&
    forall id :: id in scan.visible && id > scan.last && IsPending(scan.visible[id], retryMax) ==> id > sent
  }

  ghost predicate ScanOk(cfg: Settings, p: Proto) {
    var net := p.net;
    Scanning(net.pc) ==>
      Known(net.scan, p.hist, p.db.nextId) && Fresh(net.scan, p.db.rows) &&
      Above(net.scan, LastId(net.log), cfg.retryMax) && SettledBut(p.db.rows, net.scan.last, Hand(net.pc), cfg.retryMax)
  }

  /** The row in hand is the last one returned, and still pending if it is still there. */
  ghost predicate HandOk(cfg: Settings, p: Proto) {
    var net := p.net;
    Hand(net.pc).Some? ==>
      var id := Hand(net.pc).value;
      id == net.scan.last && id in p.hist &&
      (net.pc.Send? ==> net.pc.item == p.hist[id]) &&
      (if net.pc.Mark? then id == LastId(net.log) else id > LastId(net.log)) &&
      (id in p.db.rows ==> IsPending(p.db.rows[id], cfg.retryMax))
  }

  ghost predicate AscendingIds(log: seq<Entry>) {
    forall i, j :: 0 <= i < j < |log| ==> log[i].id < log[j].id
  }

  /** Lines carry what was inserted. */
  ghost predicate LogKnown(log: seq<Entry>, hist: map<nat, Item>) {
    forall i :: 0 <= i < |log| ==> log[i].id in hist && log[i].item == hist[log[i].id]
  }

  /** Ids of completely sent lines only go up, and whatever is still in the table at or below the
      last of them is uploaded or out of retries. */
  ghost predicate LogOk(cfg: Settings, p: Proto) {
    AscendingIds(p.net.log) && LogKnown(p.net.log, p.hist) &&
    SettledBut(p.db.rows, LastId(p.net.log), Hand(p.net.pc), cfg.retryMax)
  }

  ghost predicate TableInv(cfg: Settings, p: Proto) {
    TableOk(p.db, p.hist, cfg.retryMax) && ScanOk(cfg, p) && HandOk(cfg, p) && LogOk(cfg, p)
  }

  lemma LogBelow(log: seq<Entry>, hist: map<nat, Item>, nextId: nat)
    requires LogKnown(log, hist) && (forall id :: id in hist ==> id < nextId) && nextId >= 1
    ensures LastId(log) < nextId
  {
  }

  // ---------------------------------------------------------------------------------------
  // The store thread's steps
  // ---------------------------------------------------------------------------------------

  lemma TableInserted(db: Table<Item>, hist: map<nat, Item>, item: Item, retryMax: int)
    requires TableOk(db, hist, retryMax) && retryMax >= 0
    ensures TableOk(Inserted(db, item), hist[db.nextId := item], retryMax)
  {
  }

  lemma SettledInserted(db: Table<Item>, item: Item, mark: nat, hand: Option<nat>, retryMax: int)
    requires SettledBut(db.rows, mark, hand, retryMax) && mark < db.nextId
    ensures SettledBut(Inserted(db, item).rows, mark, hand, retryMax)
  {
  }

  lemma ScanInserted(scan: Scan, db: Table<Item>, hist: map<nat, Item>, item: Item)
    requires Known(scan, hist, db.nextId) && Fresh(scan, db.rows)
    ensures Known(scan, hist[db.nextId := item], db.nextId + 1) && Fresh(scan, Inserted(db, item).rows)
  {
  }

  lemma LogInserted(log: seq<Entry>, hist: map<nat, Item>, nextId: nat, item: Item)
    requires LogKnown(log, hist) && forall id :: id in hist ==> id < nextId
    ensures LogKnown(log, hist[nextId := item])
  {
  }

  lemma HandInserted(cfg: Settings, p: Proto, item: Item)
    requires TableInv(cfg, p)
    ensures HandOk(cfg, EnvInsert(p, item))
  {
  }

  lemma InsertKeeps(cfg: Settings, p: Proto, item: Item)
    requires TableInv(cfg, p) && cfg.retryMax >= 0
    ensures TableInv(cfg, EnvInsert(p, item))
  {
    var net, hand := p.net, Hand(p.net.pc);
    TableInserted(p.db, p.hist, item, cfg.retryMax);
    HandInserted(cfg, p, item);
    LogBelow(net.log, p.hist, p.db.nextId);
    LogInserted(net.log, p.hist, p.db.nextId, item);
    SettledInserted(p.db, item, LastId(net.log), hand, cfg.retryMax);
    if Scanning(net.pc) {
      ScanInserted(net.scan, p.db, p.hist, item);
      SettledInserted(p.db, item, net.scan.last, hand, cfg.retryMax);
    }
  }

  lemma DeleteKeeps(cfg: Settings, p: Proto, gone: set<nat>)
    requires TableInv(cfg, p)
    ensures TableInv(cfg, EnvDelete(p, gone))
  {
    FewerRows(cfg, p, p.db.rows - gone);
  }

  lemma FewerRows(cfg: Settings, p: Proto, rows: Rows)
    requires TableInv(cfg, p)
    requires rows.Keys <= p.db.rows.Keys && forall id :: id in rows ==> rows[id] == p.db.rows[id]
    ensures TableInv(cfg, p.(db := p.db.(rows := rows)))
  {
    var q := p.(db := p.db.(rows := rows));
    assert ScanOk(cfg, q);
    assert HandOk(cfg, q);
    assert LogOk(cfg, q);
  }

  // ---------------------------------------------------------------------------------------
  // The uploader's steps
  // ---------------------------------------------------------------------------------------

  /** Steps that move the program counter between places with no row in hand and no query. */
  lemma MoveKeeps(cfg: Settings, p: Proto, net: Net)
    requires TableInv(cfg, p) && Hand(p.net.pc).None? && Hand(net.pc).None?
    requires net.log == p.net.log && (Scanning(net.pc) ==> Scanning(p.net.pc) && net.scan == p.net.scan)
    ensures TableInv(cfg, p.(net := net))
  {
  }

  lemma BeginAbove(rows: Rows, nextId: nat, batchMax: int, sent: nat, retryMax: int)
    requires SettledBut(rows, sent, None, retryMax) && sent < nextId
    ensures Above(Scan(0, batchMax, rows, nextId), sent, retryMax)
  {
  }

  lemma QueryKeeps(cfg: Settings, p: Proto, pc: Pc)
    requires TableInv(cfg, p) && p.net.pc.Query? && Scanning(pc) && Hand(pc).None?
    ensures TableInv(cfg, p.(net := p.net.(scan := BeginScan(cfg, p.db), drained := false, pc := pc)))
  {
    LogBelow(p.net.log, p.hist, p.db.nextId);
    BeginAbove(p.db.rows, p.db.nextId, cfg.batchMax, LastId(p.net.log), cfg.retryMax);
  }

  /** A row the query can return carries what was inserted, lies above every line sent, and is
      pending if it is still there. */
  lemma SeenIs(cfg: Settings, p: Proto, id: nat)
    requires TableInv(cfg, p) && p.net.pc.Read? && CanRead(cfg, p, id)
    ensures
      var r := Seen(p.net.scan, p.db.rows, id).value;
      id > p.net.scan.last && id < p.db.nextId && id in p.hist && r.payload == p.hist[id] && id > LastId(p.net.log) &&
      (id in p.db.rows ==> IsPending(p.db.rows[id], cfg.retryMax))
  {
  }

  lemma AdvancedOk(scan: Scan, id: nat, hist: map<nat, Item>, nextId: nat, rows: Rows, sent: nat, retryMax: int)
    requires Known(scan, hist, nextId) && Fresh(scan, rows) && Above(scan, sent, retryMax) && scan.last < id < nextId
    ensures
      var s := Advanced(scan, id);
      Known(s, hist, nextId) && Fresh(s, rows) && Above(s, sent, retryMax)
  {
  }

  lemma SettledUpTo(rows: Rows, last: nat, id: nat, retryMax: int)
    requires SettledBut(rows, last, None, retryMax) && NonePending(rows, last, id, retryMax)
    ensures SettledBut(rows, id, Some(id), retryMax)
  {
  }

  lemma SettledMore(rows: Rows, mark: nat, id: nat, retryMax: int)
    requires SettledBut(rows, mark, None, retryMax)
    ensures SettledBut(rows, mark, Some(id), retryMax)
  {
  }

  lemma NextRowKeeps(cfg: Settings, p: Proto, id: nat, before: string)
    requires TableInv(cfg, p) && p.net.pc.Read? && CanRead(cfg, p, id)
    ensures
      var item := Seen(p.net.scan, p.db.rows, id).value.payload;
      var pc := Send(id, item, 0, before, p.net.pc.drain);
      TableInv(cfg, p.(net := p.net.(scan := Advanced(p.net.scan, id), drained := true, pc := pc)))
  {
    var net := p.net;
    SeenIs(cfg, p, id);
    AdvancedOk(net.scan, id, p.hist, p.db.nextId, p.db.rows, LastId(net.log), cfg.retryMax);
    SettledUpTo(p.db.rows, net.scan.last, id, cfg.retryMax);
    SettledMore(p.db.rows, LastId(net.log), id, cfg.retryMax);
  }

  /** Accepting part of a line, or failing, changes nothing here: the row stays in hand. */
  lemma SameHandKeeps(cfg: Settings, p: Proto, net: Net)
    requires TableInv(cfg, p) && p.net.pc.Send? && net.log == p.net.log && net.scan == p.net.scan
    requires (net.pc.Send? && net.pc == p.net.pc.(k := net.pc.k)) || net.pc == Fail(p.net.pc.id, p.net.pc.drain)
    ensures TableInv(cfg, p.(net := net))
  {
  }

  lemma LogSnoc(log: seq<Entry>, hist: map<nat, Item>, e: Entry)
    requires AscendingIds(log) && LogKnown(log, hist) && e.id > LastId(log) && e.id in hist && e.item == hist[e.id]
    ensures AscendingIds(log + [e]) && LogKnown(log + [e], hist) && LastId(log + [e]) == e.id
  {
    forall i, j | 0 <= i < j < |log + [e]|
      ensures (log + [e])[i].id < (log + [e])[j].id
    {
      if j == |log| {
        assert log[i].id <= log[|log| - 1].id;
      }
    }
  }

  lemma AboveLast(scan: Scan, sent: nat, retryMax: int)
    requires Above(scan, sent, retryMax)
    ensures Above(scan, scan.last, retryMax)
  {
  }

  lemma CompleteKeeps(cfg: Settings, p: Proto, net: Net)
    requires TableInv(cfg, p) && p.net.pc.Send? && net.scan == p.net.scan
    requires net.log == p.net.log + [Entry(p.net.pc.id, p.net.pc.item, p.net.pc.before)]
    requires net.pc == Mark(p.net.pc.id, p.net.pc.drain)
    ensures TableInv(cfg, p.(net := net))
  {
    LogSnoc(p.net.log, p.hist, net.log[|p.net.log|]);
    AboveLast(net.scan, LastId(p.net.log), cfg.retryMax);
  }

  lemma TableUpdated(db: Table<Item>, hist: map<nat, Item>, id: nat, r: Row<Item>, retryMax: int)
    requires TableOk(db, hist, retryMax) && id in db.rows && r.payload == db.rows[id].payload && r.retry <= retryMax
    ensures TableOk(db.(rows := db.rows[id := r]), hist, retryMax)
  {
  }

  lemma SettledMarked(rows: Rows, mark: nat, id: nat, retryMax: int)
    requires SettledBut(rows, mark, Some(id), retryMax)
    ensures id in rows ==> SettledBut(rows[id := rows[id].(uploaded := true)], mark, None, retryMax)
    ensures id !in rows ==> SettledBut(rows, mark, None, retryMax)
  {
  }

  lemma MarkKeeps(cfg: Settings, p: Proto, pc: Pc)
    requires TableInv(cfg, p) && p.net.pc.Mark? && Scanning(pc) && Hand(pc).None?
    ensures TableInv(cfg, p.(db := Marked(p.db, p.net.pc.id), net := p.net.(pc := pc)))
  {
    var net, id, rows := p.net, p.net.pc.id, p.db.rows;
    SettledMarked(rows, LastId(net.log), id, cfg.retryMax);
    SettledMarked(rows, net.scan.last, id, cfg.retryMax);
    if id in rows {
      TableUpdated(p.db, p.hist, id, rows[id].(uploaded := true), cfg.retryMax);
    }
  }

  /** A retry counted on the row in hand, which lies above every line sent. */
  lemma FailKeeps(cfg: Settings, p: Proto, net: Net)
    requires TableInv(cfg, p) && p.net.pc.Fail? && net.log == p.net.log && !Scanning(net.pc)
    ensures TableInv(cfg, p.(db := Retried(p.db, p.net.pc.id), net := net))
  {
    var id, rows := p.net.pc.id, p.db.rows;
    if id in rows {
      var r := rows[id].(retry := rows[id].retry + 1);
      TableUpdated(p.db, p.hist, id, r, cfg.retryMax);
    }
  }

  lemma ReadKeeps(cfg: Settings, p: Proto, a: Act, q: Proto)
    requires TableInv(cfg, p) && p.net.conns != [] && p.net.pc.Read? && Fits(cfg)
    requires q == ReadStep(cfg, p, a) && q != p
    ensures TableInv(cfg, q)
  {
    if !a.NextRow? {
      assert q == p.(net := q.net);
      MoveKeeps(cfg, p, q.net);
    } else {
      var id := a.id;
      var item := Seen(p.net.scan, p.db.rows, id).value.payload;
      var before := Rest(Current(p.net.conns).bytes);
      NextRowKeeps(cfg, p, id, before);
      var pc := Send(id, item, 0, before, p.net.pc.drain);
      assert q == p.(net := p.net.(scan := Advanced(p.net.scan, id), drained := true, pc := pc));
    }
  }

  lemma SendKeeps(cfg: Settings, p: Proto, a: Act, q: Proto)
    requires TableInv(cfg, p) && p.net.conns != [] && p.net.pc.Send?
    requires q == SendStep(cfg, p, a) && q != p
    ensures TableInv(cfg, q)
  {
    assert q == p.(net := q.net);
    if q.net.pc.Mark? {
      CompleteKeeps(cfg, p, q.net);
    } else {
      SameHandKeeps(cfg, p, q.net);
    }
  }

  lemma OnlyMoves(cfg: Settings, shutdown: bool, p: Proto, a: Act, q: Proto)
    requires Moving(p.net.pc) && q == Step(cfg, shutdown, p, a)
    ensures q == p.(net := q.net) && q.net.log == p.net.log && Hand(p.net.pc).None? && Hand(q.net.pc).None?
    ensures Scanning(q.net.pc) ==> Scanning(p.net.pc) && q.net.scan == p.net.scan
  {
  }

  lemma MoveStep(cfg: Settings, shutdown: bool, p: Proto, a: Act, q: Proto)
    requires TableInv(cfg, p) && Moving(p.net.pc) && q == Step(cfg, shutdown, p, a)
    ensures TableInv(cfg, q)
  {
    OnlyMoves(cfg, shutdown, p, a, q);
    MoveKeeps(cfg, p, q.net);
  }

  lemma RowStep(cfg: Settings, shutdown: bool, p: Proto, a: Act, q: Proto)
    requires TableInv(cfg, p) && Fits(cfg) && (p.net.pc.Read? || p.net.pc.Send?)
    requires q == Step(cfg, shutdown, p, a)
    ensures TableInv(cfg, q)
  {
    if q != p {
      if p.net.pc.Read? {
        ReadKeeps(cfg, p, a, q);
      } else {
        SendKeeps(cfg, p, a, q);
      }
    }
  }

  lemma QueryStep(cfg: Settings, shutdown: bool, p: Proto, a: Act, q: Proto)
    requires TableInv(cfg, p) && p.net.pc.Query?
    requires q == Step(cfg, shutdown, p, a)
    ensures TableInv(cfg, q)
  {
    if a == QueryFails {
      assert q == p.(net := q.net);
      MoveKeeps(cfg, p, q.net);
    } else {
      QueryKeeps(cfg, p, AfterRow(p.net.pc.drain));
    }
  }

  lemma UpdateStep(cfg: Settings, shutdown: bool, p: Proto, a: Act, q: Proto)
    requires TableInv(cfg, p) && Updating(p.net.pc)
    requires q == Step(cfg, shutdown, p, a)
    ensures TableInv(cfg, q)
  {
    if p.net.pc.Mark? {
      MarkKeeps(cfg, p, AfterRow(p.net.pc.drain));
    } else {
      assert q == p.(db := Retried(p.db, p.net.pc.id), net := q.net);
      FailKeeps(cfg, p, q.net);
    }
  }

  /** Every step of the uploader keeps all of it: retries within the limit, ids of sent lines
      rising, everything up to the last of them settled, and the query in step with the table. */
  lemma StepKeeps(cfg: Settings, shutdown: bool, p: Proto, a: Act)
    requires TableInv(cfg, p) && Fits(cfg)
    ensures TableInv(cfg, Step(cfg, shutdown, p, a))
  {
    var q := Step(cfg, shutdown, p, a);
    if p.net.pc.Read? || p.net.pc.Send? {
      RowStep(cfg, shutdown, p, a, q);
    } else if p.net.pc.Query? {
      QueryStep(cfg, shutdown, p, a, q);
    } else if Updating(p.net.pc) {
      UpdateStep(cfg, shutdown, p, a, q);
    } else {
      MoveStep(cfg, shutdown, p, a, q);
    }
  }

  // ---------------------------------------------------------------------------------------
  // Identity of the row updated, and the end of the drain
  // ---------------------------------------------------------------------------------------

  lemma RowStepQuiet(cfg: Settings, shutdown: bool, p: Proto, a: Act, q: Proto)
    requires (p.net.pc.Read? || p.net.pc.Send?) && q == Step(cfg, shutdown, p, a)
    ensures q == p.(net := q.net)
  {
  }

  lemma ReadMoves(cfg: Settings, p: Proto, a: Act)
    requires p.net.pc.Read? && p.net.conns != []
    ensures
      var q, drain := ReadStep(cfg, p, a), p.net.pc.drain;
      q.db == p.db && q.net.scan.bound == p.net.scan.bound && q.net.connected == p.net.connected &&
      (q.net.pc == Read(drain) || q.net.pc == AfterRow(drain) || (q.net.pc.Send? && q.net.pc.drain == drain) ||
       (if drain then q.net.pc == Query(true) || q.net.pc == Done else q.net.pc == Check))
  {
  }

  lemma SendMoves(cfg: Settings, p: Proto, a: Act)
    requires p.net.pc.Send? && p.net.conns != []
    ensures
      var q := SendStep(cfg, p, a);
      q.db == p.db && q.net.scan.bound == p.net.scan.bound && q.net.connected == p.net.connected &&
      (q.net.pc.Send? || q.net.pc.Mark? || q.net.pc.Fail?) && q.net.pc.drain == p.net.pc.drain
  {
  }

  /** Where the uploader can be after reading or sending. */
  lemma RowPcMoves(cfg: Settings, shutdown: bool, p: Proto, a: Act)
    requires p.net.pc.Read? || p.net.pc.Send?
    ensures
      var q, drain := Step(cfg, shutdown, p, a), p.net.pc.drain;
      q.db == p.db && q.net.scan.bound == p.net.scan.bound && q.net.connected == p.net.connected &&
      (q.net.pc == ScanCheck ==> !drain) && (q.net.pc == Done ==> drain && p.net.pc.Read?) &&
      (q.net.pc == Check ==> !drain) && !q.net.pc.Connect? &&
      (q.net.pc.Query? || q.net.pc.Read? || q.net.pc.Send? || q.net.pc.Mark? || q.net.pc.Fail? ==>
        q.net.pc.drain == drain)
  {
    if p.net.conns != [] {
      if p.net.pc.Read? {
        ReadMoves(cfg, p, a);
      } else {
        SendMoves(cfg, p, a);
      }
    }
  }

  /** Between queries ... */
  predicate Moving(pc: Pc) { pc.Check? || pc.Connect? || pc.ScanCheck? || pc.Done? }

  /** ... and about to update the row in hand. */
  predicate Updating(pc: Pc) { pc.Mark? || pc.Fail? }

  lemma UpdateEvolves(db: Table<Item>, id: nat)
    ensures Evolves(db, Marked(db, id)) && Evolves(db, Retried(db, id)) && Evolves(db, db)
  {
  }

  /** The uploader never adds or removes rows, nor hands out ids. */
  lemma StepEvolves(cfg: Settings, shutdown: bool, p: Proto, a: Act)
    ensures Evolves(p.db, Step(cfg, shutdown, p, a).db) && Step(cfg, shutdown, p, a).hist == p.hist
  {
    var q := Step(cfg, shutdown, p, a);
    if p.net.pc.Read? || p.net.pc.Send? {
      RowStepQuiet(cfg, shutdown, p, a, q);
      UpdateEvolves(p.db, 0);
    } else if Updating(p.net.pc) {
      UpdateEvolves(p.db, p.net.pc.id);
      assert q.db == Marked(p.db, p.net.pc.id) || q.db == Retried(p.db, p.net.pc.id);
    } else {
      UpdateEvolves(p.db, 0);
      assert q.db == p.db;
    }
  }

  /** What one step does to a row: the row in hand is marked once its line is the last one sent, or
      its retry is counted, within the limit, and it still carries what was inserted and sent under
      its id; every other row stays as it is. */
  ghost predicate RowMoves(p: Proto, id: nat, r: Row<Item>, retryMax: int)
    requires id in p.db.rows
  {
    var row := p.db.rows[id];
    if Hand(p.net.pc) == Some(id) && !p.net.pc.Send? then
      id in p.hist && row.payload == p.hist[id] && IsPending(row, retryMax) &&
      (if p.net.pc.Mark? then LastSent(p.net.log, id, p.hist[id]) && r == row.(uploaded := true)
       else r == row.(retry := row.retry + 1) && r.retry <= retryMax)
    else r == row
  }

  predicate LastSent(log: seq<Entry>, id: nat, item: Item) {
    log != [] && log[|log| - 1].id == id && log[|log| - 1].item == item
  }

  lemma LastOfLog(log: seq<Entry>, hist: map<nat, Item>, id: nat)
    requires LogKnown(log, hist) && id == LastId(log) && id >= 1 && id in hist
    ensures LastSent(log, id, hist[id])
  {
  }

  lemma MarkTouches(cfg: Settings, p: Proto, id: nat)
    requires TableInv(cfg, p) && id in p.db.rows && p.net.pc.Mark?
    ensures id in Marked(p.db, p.net.pc.id).rows && RowMoves(p, id, Marked(p.db, p.net.pc.id).rows[id], cfg.retryMax)
  {
    if id == p.net.pc.id {
      LastOfLog(p.net.log, p.hist, id);
    }
  }

  lemma FailTouches(cfg: Settings, p: Proto, id: nat)
    requires TableInv(cfg, p) && id in p.db.rows && p.net.pc.Fail?
    ensures id in Retried(p.db, p.net.pc.id).rows && RowMoves(p, id, Retried(p.db, p.net.pc.id).rows[id], cfg.retryMax)
  {
  }

  /** Since ids are never reused, an update can only affect the row that was read, even if rows
      were deleted or inserted between reading and updating it. */
  lemma OnlyTheRowRead(cfg: Settings, shutdown: bool, p: Proto, a: Act, id: nat)
    requires TableInv(cfg, p) && id in p.db.rows
    ensures
      var q := Step(cfg, shutdown, p, a);
      id in q.db.rows && RowMoves(p, id, q.db.rows[id], cfg.retryMax)
  {
    var q := Step(cfg, shutdown, p, a);
    if p.net.pc.Mark? {
      MarkTouches(cfg, p, id);
    } else if p.net.pc.Fail? {
      FailTouches(cfg, p, id);
    } else if p.net.pc.Read? || p.net.pc.Send? {
      RowStepQuiet(cfg, shutdown, p, a, q);
    } else {
      assert q.db == p.db;
    }
  }

  /** What comes of the row in hand: its line counts as failed only when a send fails, and as sent
      only when send has accepted its last byte; a short write leaves the rest to be sent. */
  ghost predicate HandMoves(cfg: Settings, pc: Pc, a: Act, next: Pc) {
    pc.Send? &&
    if a.Break? then next == Fail(pc.id, pc.drain)
    else if a.Accept? && a.n > 0 && pc.k + a.n == |cfg.body(pc.item)| + 1 then next == Mark(pc.id, pc.drain)
    else if a.Accept? && a.n > 0 && pc.k + a.n <= |cfg.body(pc.item)| then next == pc.(k := pc.k + a.n)
    else next == pc
  }

  lemma LineMoves(cfg: Settings, p: Proto, a: Act)
    requires p.net.pc.Send? && p.net.conns != []
    ensures HandMoves(cfg, p.net.pc, a, SendStep(cfg, p, a).net.pc)
  {
  }

  lemma RowInHand(cfg: Settings, p: Proto, a: Act)
    requires p.net.pc.Read? && p.net.conns != []
    ensures !Updating(ReadStep(cfg, p, a).net.pc)
  {
  }

  lemma UpdateDecides(cfg: Settings, shutdown: bool, p: Proto, a: Act)
    requires Updating(p.net.pc)
    ensures !Updating(Step(cfg, shutdown, p, a).net.pc)
  {
  }

  lemma MoveDecides(cfg: Settings, shutdown: bool, p: Proto, a: Act)
    requires Moving(p.net.pc)
    ensures !Updating(Step(cfg, shutdown, p, a).net.pc)
  {
  }

  lemma QueryDecides(cfg: Settings, shutdown: bool, p: Proto, a: Act)
    requires p.net.pc.Query?
    ensures !Updating(Step(cfg, shutdown, p, a).net.pc)
  {
  }

  /** A retry is counted for a send that failed, and a row marked for a line that went out: no other
      step leads there. */
  lemma FailedOnlyByBreak(cfg: Settings, shutdown: bool, p: Proto, a: Act)
    ensures
      var next := Step(cfg, shutdown, p, a).net.pc;
      if p.net.pc.Send? && p.net.conns != [] then HandMoves(cfg, p.net.pc, a, next) else !Updating(next)
  {
    if p.net.pc.Send? || p.net.pc.Read? {
      if p.net.conns == [] {
        assert Step(cfg, shutdown, p, a) == p;
      } else if p.net.pc.Send? {
        LineMoves(cfg, p, a);
      } else {
        RowInHand(cfg, p, a);
      }
    } else if Updating(p.net.pc) {
      UpdateDecides(cfg, shutdown, p, a);
    } else if p.net.pc.Query? {
      QueryDecides(cfg, shutdown, p, a);
    } else {
      MoveDecides(cfg, shutdown, p, a);
    }
  }

  /** A query that has returned nothing still has its whole range and limit before it. */
  predicate UnreadOk(cfg: Settings, net: Net) {
    Scanning(net.pc) && !net.drained ==> Hand(net.pc).None? && net.scan.last == 0 && net.scan.left == cfg.batchMax
  }

  lemma UnreadKeepsRead(cfg: Settings, p: Proto, a: Act)
    requires UnreadOk(cfg, p.net) && p.net.pc.Read? && p.net.conns != []
    ensures UnreadOk(cfg, ReadStep(cfg, p, a).net)
  {
  }

  lemma UnreadKeepsSend(cfg: Settings, p: Proto, a: Act)
    requires UnreadOk(cfg, p.net) && p.net.pc.Send? && p.net.conns != []
    ensures SendStep(cfg, p, a).net.drained
    ensures Scanning(SendStep(cfg, p, a).net.pc)
  {
  }

  lemma UnreadKeepsUpdate(cfg: Settings, shutdown: bool, p: Proto, a: Act)
    requires UnreadOk(cfg, p.net) && Updating(p.net.pc)
    ensures UnreadOk(cfg, Step(cfg, shutdown, p, a).net)
  {
  }

  lemma UnreadKeepsQuery(cfg: Settings, shutdown: bool, p: Proto, a: Act)
    requires p.net.pc.Query?
    ensures UnreadOk(cfg, Step(cfg, shutdown, p, a).net)
  {
  }

  lemma UnreadKeepsMove(cfg: Settings, shutdown: bool, p: Proto, a: Act)
    requires UnreadOk(cfg, p.net) && Moving(p.net.pc)
    ensures UnreadOk(cfg, Step(cfg, shutdown, p, a).net)
  {
  }

  lemma UnreadKeeps(cfg: Settings, shutdown: bool, p: Proto, a: Act)
    requires UnreadOk(cfg, p.net)
    ensures UnreadOk(cfg, Step(cfg, shutdown, p, a).net)
  {
    if p.net.pc.Read? {
      if p.net.conns != [] {
        UnreadKeepsRead(cfg, p, a);
      }
    } else if p.net.pc.Send? {
      if p.net.conns != [] {
        UnreadKeepsSend(cfg, p, a);
      }
    } else if Updating(p.net.pc) {
      UnreadKeepsUpdate(cfg, shutdown, p, a);
    } else if p.net.pc.Query? {
      UnreadKeepsQuery(cfg, shutdown, p, a);
    } else {
      UnreadKeepsMove(cfg, shutdown, p, a);
    }
  }

  /** A query returns a row only while its limit allows one more, the least one it can see above
      those returned, and uses up one of the limit for it. */
  lemma LimitCounts(cfg: Settings, p: Proto, id: nat)
    requires p.net.pc.Read? && p.net.conns != [] && Fits(cfg)
    ensures
      var q := ReadStep(cfg, p, NextRow(id));
      q == p ||
      (p.net.scan.left != 0 && id > p.net.scan.last && q.net.scan.last == id && q.net.pc.Send? && q.net.pc.id == id &&
       q.net.scan.left == (if p.net.scan.left < 0 then p.net.scan.left else p.net.scan.left - 1) &&
       forall x :: x in p.db.rows && p.net.scan.last < x < id ==>
         p.db.rows[x].uploaded || p.db.rows[x].retry >= cfg.retryMax)
  {
    if CanRead(cfg, p, id) {
      assert |LineOf(cfg, Seen(p.net.scan, p.db.rows, id).value.payload)| < 512;
    }
  }

  /** Leaving the drain: no row the last query could see is pending any more. */
  lemma DrainEnds(cfg: Settings, shutdown: bool, p: Proto, a: Act)
    requires TableInv(cfg, p) && UnreadOk(cfg, p.net) && cfg.batchMax != 0
    requires p.net.pc == Read(true) && Step(cfg, shutdown, p, a).net.pc.Done? && !Step(cfg, shutdown, p, a).net.gaveUp
    ensures forall id :: id in p.db.rows && id < p.net.scan.bound ==> !IsPending(p.db.rows[id], cfg.retryMax)
    ensures Step(cfg, shutdown, p, a).db == p.db
  {
    assert Step(cfg, shutdown, p, a) == ReadStep(cfg, p, a);
    assert a.EndOfRows? && CanEnd(cfg, p);
  }
}
