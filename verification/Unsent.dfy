/** Runs in which the shutdown does not upload a stored row, or uploads it in vain
    (app/src/uploader.c). */
module Unsent {
  import opened Samples
  import opened Json
  import opened Tables
  import opened Receiver
  import opened UploadProtocol
  import opened Delivery
  import opened Pipeline
  import opened Runs

  /** An uploader that never got a connection leaves the row pending: the condition of
      EndToEnd.PendingExactly cannot be dropped. */
  lemma NeverConnected(cfg: Config, sample: Sample) returns (acts: seq<Action>)
    requires cfg.up.retryMax > 0
    ensures
      var s := Execution(cfg, Start(IDLE), acts);
      s.main == UPLOADER_JOINED && 1 in s.proto.db.rows && IsPending(s.proto.db.rows[1], cfg.up.retryMax)
  {
    var t := Stopped(Stored(cfg, sample, IDLE), UPLOADER_STOPPED);
    var a := ToStopped(cfg, sample, IDLE);
    var b := LeaveUnconnected(cfg, t);
    Joined(cfg, Start(IDLE), a, b);
    acts := a + b;
  }

  // ---------------------------------------------------------------------------------------
  // A row whose first send breaks off in the drain
  // ---------------------------------------------------------------------------------------

  const CONNECTED := IDLE.(pc := Query(false), connected := true, conns := [Conn("", [])])

  lemma ToConnected(cfg: Config) returns (acts: seq<Action>)
    ensures Execution(cfg, Start(IDLE), acts) == Start(CONNECTED)
  {
    var s := Start(IDLE);
    acts := [];
    acts := Move(cfg, s, acts, Upload(Go), Start(IDLE.(pc := Connect)));
    acts := Move(cfg, s, acts, Upload(Go), Start(CONNECTED));
  }

  /** The uploader's state with row 1 as given, on its only connection. */
  function At(cfg: Config, sample: Sample, net: Net, row: Row<Item>): State {
    var s := Stopped(Stored(cfg, sample, net), UPLOADER_STOPPED);
    s.(proto := s.proto.(db := Table(map[1 := row], 2)))
  }

  function Began(cfg: Config, row: Row<Item>): Scan {
    Scan(0, cfg.up.batchMax, map[1 := row], 2)
  }

  /** The drain is about to read row 1. */
  function Reading(cfg: Config, row: Row<Item>, conn: Conn, log: seq<Entry>, broke: bool): Net {
    Net(Read(true), true, Began(cfg, row), false, [conn], log, broke, false)
  }

  lemma ToReading(cfg: Config, sample: Sample) returns (acts: seq<Action>)
    ensures
      var r := Row1(cfg, sample);
      Execution(cfg, At(cfg, sample, CONNECTED, r), acts) ==
      At(cfg, sample, Reading(cfg, r, Conn("", []), [], false), r)
  {
    var r := Row1(cfg, sample);
    var s := At(cfg, sample, CONNECTED, r);
    var scanned := CONNECTED.(scan := Began(cfg, r));
    acts := [];
    acts := Move(cfg, s, acts, Upload(Go), At(cfg, sample, scanned.(pc := ScanCheck), r));
    acts := Move(cfg, s, acts, Upload(Go), At(cfg, sample, scanned.(pc := Check), r));
    acts := Move(cfg, s, acts, Upload(Go), At(cfg, sample, scanned.(pc := Query(true)), r));
    acts := Move(cfg, s, acts, Upload(Go), At(cfg, sample, Reading(cfg, r, Conn("", []), [], false), r));
  }

  /** Row 1 as the drain's query returns it. */
  function Sending(cfg: Config, net: Net, row: Row<Item>, before: string): Net {
    net.(scan := Advanced(net.scan, 1), drained := true, pc := Send(1, row.payload, 0, before, true))
  }

  lemma ReadsRow(cfg: Config, sample: Sample, net: Net, row: Row<Item>)
    requires Fits(cfg.up) && cfg.up.batchMax != 0 && IsPending(row, cfg.up.retryMax)
    requires net.conns != [] && net.pc == Read(true) && net.scan == Began(cfg, row)
    ensures
      Next(cfg, At(cfg, sample, net, row), Upload(NextRow(1))) ==
      At(cfg, sample, Sending(cfg, net, row, Rest(Current(net.conns).bytes)), row)
  {
    var p := At(cfg, sample, net, row).proto;
    assert CanRead(cfg.up, p, 1);
    assert |LineOf(cfg.up, row.payload)| < 512;
  }

  /** A sending uploader on its only connection. */
  predicate OnlySending(cfg: Config, net: Net, row: Row<Item>, conn: Conn, before: string) {
    net.conns == [conn] && net.pc == Send(1, row.payload, 0, before, true) && net.log == [] &&
    net.connected && !net.gaveUp
  }

  lemma FirstByte(cfg: Config, sample: Sample, net: Net, row: Row<Item>)
    requires Fits(cfg.up) && OnlySending(cfg, net, row, Conn("", []), "")
    ensures
      Next(cfg, At(cfg, sample, net, row), Upload(Accept(1))) ==
      At(cfg, sample, net.(conns := [Conn(LineOf(cfg.up, row.payload)[..1], [])], pc := net.pc.(k := 1)), row)
  {
    var line := LineOf(cfg.up, row.payload);
    assert line[0..1] == line[..1] && "" + line[..1] == line[..1];
    assert net.conns[..0] == [];
    assert Accepted(cfg.up, net, 1) == net.(conns := [Conn(line[..1], [])], pc := net.pc.(k := 1));
  }

  lemma RetryCounted(cfg: Config, sample: Sample, net: Net, row: Row<Item>)
    requires net.pc == Fail(1, true)
    ensures
      Next(cfg, At(cfg, sample, net, row), Upload(Go)) ==
      At(cfg, sample, net.(pc := Query(true)), row.(retry := row.retry + 1))
  {
    assert map[1 := row][1 := row.(retry := row.retry + 1)] == map[1 := row.(retry := row.retry + 1)];
  }

  lemma SendFails(cfg: Config, sample: Sample, net: Net, row: Row<Item>)
    requires net.pc.Send? && net.pc.id == 1 && net.pc.drain && net.conns != []
    ensures
      Next(cfg, At(cfg, sample, net, row), Upload(Break)) ==
      At(cfg, sample, net.(pc := Fail(1, true), broke := true), row)
  {
  }

  lemma Requeries(cfg: Config, sample: Sample, net: Net, row: Row<Item>)
    requires net.pc == Query(true)
    ensures
      Next(cfg, At(cfg, sample, net, row), Upload(Go)) ==
      At(cfg, sample, net.(scan := Began(cfg, row), drained := false, pc := Read(true)), row)
  {
  }

  /** One byte is accepted, the send fails, the retry is counted, and the drain queries again. */
  lemma Breaks(cfg: Config, sample: Sample, net: Net, row: Row<Item>) returns (acts: seq<Action>)
    requires Fits(cfg.up) && OnlySending(cfg, net, row, Conn("", []), "")
    ensures
      var again := row.(retry := row.retry + 1);
      var first := LineOf(cfg.up, row.payload)[..1];
      Execution(cfg, At(cfg, sample, net, row), acts) ==
      At(cfg, sample, Reading(cfg, again, Conn(first, []), [], true), again)
  {
    var s := At(cfg, sample, net, row);
    var again, c := row.(retry := row.retry + 1), Conn(LineOf(cfg.up, row.payload)[..1], []);
    var n1 := net.(conns := [c], pc := net.pc.(k := 1));
    var n2 := n1.(pc := Fail(1, true), broke := true);
    acts := [];
    FirstByte(cfg, sample, net, row);
    acts := Move(cfg, s, acts, Upload(Accept(1)), At(cfg, sample, n1, row));
    SendFails(cfg, sample, n1, row);
    acts := Move(cfg, s, acts, Upload(Break), At(cfg, sample, n2, row));
    RetryCounted(cfg, sample, n2, row);
    acts := Move(cfg, s, acts, Upload(Go), At(cfg, sample, n2.(pc := Query(true)), again));
    Requeries(cfg, sample, n2.(pc := Query(true)), again);
    acts := Move(cfg, s, acts, Upload(Go), At(cfg, sample, Reading(cfg, again, c, [], true), again));
  }

  lemma WholeLine(cfg: Config, sample: Sample, net: Net, row: Row<Item>, conn: Conn, before: string)
    requires OnlySending(cfg, net, row, conn, before) && conn.lines == []
    ensures
      var line, e := LineOf(cfg.up, row.payload), Entry(1, row.payload, before);
      Next(cfg, At(cfg, sample, net, row), Upload(Accept(|line|))) ==
      At(cfg, sample, net.(conns := [Conn(conn.bytes + line, [e])], log := [e], pc := Mark(1, true)), row)
  {
    var line, e := LineOf(cfg.up, row.payload), Entry(1, row.payload, before);
    assert line[0..|line|] == line && conn.lines + [e] == [e] && net.log + [e] == [e];
    assert net.conns[..0] == [];
    assert Accepted(cfg.up, net, |line|) ==
      net.(conns := [Conn(conn.bytes + line, [e])], log := [e], pc := Mark(1, true));
  }

  lemma RowMarked(cfg: Config, sample: Sample, net: Net, row: Row<Item>)
    requires net.pc == Mark(1, true)
    ensures
      Next(cfg, At(cfg, sample, net, row), Upload(Go)) ==
      At(cfg, sample, net.(pc := Read(true)), row.(uploaded := true))
  {
    assert map[1 := row][1 := row.(uploaded := true)] == map[1 := row.(uploaded := true)];
  }

  lemma QueryEnds(cfg: Config, sample: Sample, net: Net, row: Row<Item>)
    requires !IsPending(row, cfg.up.retryMax) && net.pc == Read(true) && net.conns != []
    ensures
      Next(cfg, At(cfg, sample, net, row), Upload(EndOfRows)) ==
      At(cfg, sample, net.(pc := if net.drained then Query(true) else Done), row)
  {
    assert CanEnd(cfg.up, At(cfg, sample, net, row).proto);
  }

  lemma MainJoins(cfg: Config, sample: Sample, net: Net, row: Row<Item>)
    requires net.pc.Done?
    ensures Next(cfg, At(cfg, sample, net, row), Main) == At(cfg, sample, net, row).(main := UPLOADER_JOINED)
  {
  }

  /** A query that finds nothing ends the drain. */
  lemma LastQuery(cfg: Config, sample: Sample, net: Net, row: Row<Item>) returns (acts: seq<Action>)
    requires !IsPending(row, cfg.up.retryMax) && net.pc == Read(true) && !net.drained && net.conns != []
    ensures
      Execution(cfg, At(cfg, sample, net, row), acts) ==
      At(cfg, sample, net.(pc := Done), row).(main := UPLOADER_JOINED)
  {
    var s := At(cfg, sample, net, row);
    QueryEnds(cfg, sample, net, row);
    acts := Move(cfg, s, [], Upload(EndOfRows), At(cfg, sample, net.(pc := Done), row));
    MainJoins(cfg, sample, net.(pc := Done), row);
    acts := Move(cfg, s, acts, Main, At(cfg, sample, net.(pc := Done), row).(main := UPLOADER_JOINED));
  }

  /** The marked row ends the drain, after one more query. */
  lemma DrainEndsHere(cfg: Config, sample: Sample, net: Net, row: Row<Item>) returns (acts: seq<Action>)
    requires row.uploaded && net.pc == Read(true) && net.drained && net.conns != []
    ensures
      var s := Execution(cfg, At(cfg, sample, net, row), acts);
      s.main == UPLOADER_JOINED && s.proto.db.rows == map[1 := row] && s.proto.net.log == net.log &&
      s.proto.net.conns == net.conns
  {
    var s := At(cfg, sample, net, row);
    var query := net.(pc := Query(true));
    var last := net.(scan := Began(cfg, row), drained := false);
    QueryEnds(cfg, sample, net, row);
    var a := Move(cfg, s, [], Upload(EndOfRows), At(cfg, sample, query, row));
    Requeries(cfg, sample, query, row);
    var b := Move(cfg, s, a, Upload(Go), At(cfg, sample, last, row));
    var c := LastQuery(cfg, sample, last, row);
    Joined(cfg, s, b, c);
    acts := b + c;
  }

  /** The row is sent whole and marked, and the drain ends. */
  lemma Ends(cfg: Config, sample: Sample, net: Net, row: Row<Item>, conn: Conn, before: string)
    returns (acts: seq<Action>)
    requires OnlySending(cfg, net, row, conn, before) && conn.lines == [] && net.drained
    ensures
      var s := Execution(cfg, At(cfg, sample, net, row), acts);
      s.main == UPLOADER_JOINED && s.proto.db.rows == map[1 := row.(uploaded := true)] &&
      s.proto.net.log == [Entry(1, row.payload, before)] &&
      s.proto.net.conns == [Conn(conn.bytes + LineOf(cfg.up, row.payload), [Entry(1, row.payload, before)])]
  {
    var s, line, e := At(cfg, sample, net, row), LineOf(cfg.up, row.payload), Entry(1, row.payload, before);
    var done, c := row.(uploaded := true), Conn(conn.bytes + line, [e]);
    var sent := net.(conns := [c], log := [e], pc := Mark(1, true));
    WholeLine(cfg, sample, net, row, conn, before);
    var a := Move(cfg, s, [], Upload(Accept(|line|)), At(cfg, sample, sent, row));
    RowMarked(cfg, sample, sent, row);
    var b := Move(cfg, s, a, Upload(Go), At(cfg, sample, sent.(pc := Read(true)), done));
    var d := DrainEndsHere(cfg, sample, sent.(pc := Read(true)), done);
    Joined(cfg, s, b, d);
    acts := b + d;
  }

  lemma StoppedAt(cfg: Config, sample: Sample)
    ensures Stopped(Stored(cfg, sample, CONNECTED), UPLOADER_STOPPED) == At(cfg, sample, CONNECTED, Row1(cfg, sample))
  {
  }

  /** From the start to the drain's first read. */
  lemma ToFirstRead(cfg: Config, sample: Sample) returns (acts: seq<Action>)
    ensures
      var r := Row1(cfg, sample);
      Execution(cfg, Start(IDLE), acts) == At(cfg, sample, Reading(cfg, r, Conn("", []), [], false), r)
  {
    var a := ToConnected(cfg);
    var b := ToStopped(cfg, sample, CONNECTED);
    StoppedAt(cfg, sample);
    var c := ToReading(cfg, sample);
    Joined(cfg, Start(IDLE), a, b);
    Joined(cfg, Start(IDLE), a + b, c);
    acts := a + b + c;
  }

  /** The first byte and the failure. */
  lemma ReadAndBreak(cfg: Config, sample: Sample, r: Row<Item>) returns (acts: seq<Action>)
    requires Fits(cfg.up) && cfg.up.batchMax != 0 && IsPending(r, cfg.up.retryMax)
    ensures
      var again := r.(retry := r.retry + 1);
      var first := Conn(LineOf(cfg.up, r.payload)[..1], []);
      Execution(cfg, At(cfg, sample, Reading(cfg, r, Conn("", []), [], false), r), acts) ==
      At(cfg, sample, Reading(cfg, again, first, [], true), again)
  {
    var net := Reading(cfg, r, Conn("", []), [], false);
    var sending := Sending(cfg, net, r, "");
    ReadsRow(cfg, sample, net, r);
    var a := Move(cfg, At(cfg, sample, net, r), [], Upload(NextRow(1)), At(cfg, sample, sending, r));
    var b := Breaks(cfg, sample, sending, r);
    Joined(cfg, At(cfg, sample, net, r), a, b);
    acts := a + b;
  }

  lemma ToBroken(cfg: Config, sample: Sample) returns (acts: seq<Action>)
    requires Fits(cfg.up) && cfg.up.batchMax != 0 && cfg.up.retryMax > 0
    ensures
      var again := Row1(cfg, sample).(retry := 1);
      var first := Conn(LineOf(cfg.up, again.payload)[..1], []);
      Execution(cfg, Start(IDLE), acts) == At(cfg, sample, Reading(cfg, again, first, [], true), again)
  {
    var a := ToFirstRead(cfg, sample);
    var b := ReadAndBreak(cfg, sample, Row1(cfg, sample));
    Joined(cfg, Start(IDLE), a, b);
    acts := a + b;
  }

  /** A send that accepts nothing, on to the next query's first read. */
  lemma SendsNothing(cfg: Config, sample: Sample, r: Row<Item>, broke: bool) returns (acts: seq<Action>)
    requires Fits(cfg.up) && cfg.up.batchMax != 0 && IsPending(r, cfg.up.retryMax)
    ensures
      var again, c := r.(retry := r.retry + 1), Conn("", []);
      Execution(cfg, At(cfg, sample, Reading(cfg, r, c, [], broke), r), acts) ==
      At(cfg, sample, Reading(cfg, again, c, [], true), again)
  {
    var net := Reading(cfg, r, Conn("", []), [], broke);
    var s, again := At(cfg, sample, net, r), r.(retry := r.retry + 1);
    var n1 := Sending(cfg, net, r, "");
    var n2 := n1.(pc := Fail(1, true), broke := true);
    ReadsRow(cfg, sample, net, r);
    acts := Move(cfg, s, [], Upload(NextRow(1)), At(cfg, sample, n1, r));
    SendFails(cfg, sample, n1, r);
    acts := Move(cfg, s, acts, Upload(Break), At(cfg, sample, n2, r));
    RetryCounted(cfg, sample, n2, r);
    acts := Move(cfg, s, acts, Upload(Go), At(cfg, sample, n2.(pc := Query(true)), again));
    Requeries(cfg, sample, n2.(pc := Query(true)), again);
    acts := Move(cfg, s, acts, Upload(Go), At(cfg, sample, Reading(cfg, again, Conn("", []), [], true), again));
  }

  /** ... and so on until the row is out of retries. */
  lemma {:induction false} UntilGivenUp(cfg: Config, sample: Sample, r: Row<Item>, broke: bool)
    returns (acts: seq<Action>, last: Net)
    requires Fits(cfg.up) && cfg.up.batchMax != 0 && !r.uploaded && r.retry <= cfg.up.retryMax
    ensures
      var c := Conn("", []);
      Execution(cfg, At(cfg, sample, Reading(cfg, r, c, [], broke), r), acts) ==
      At(cfg, sample, last, r.(retry := cfg.up.retryMax))
    ensures last.pc == Read(true) && !last.drained && last.conns != [] && last.connected && !last.gaveUp
    decreases cfg.up.retryMax - r.retry
  {
    var net := Reading(cfg, r, Conn("", []), [], broke);
    if r.retry == cfg.up.retryMax {
      acts, last := [], net;
    } else {
      var a := SendsNothing(cfg, sample, r, broke);
      var b;
      b, last := UntilGivenUp(cfg, sample, r.(retry := r.retry + 1), true);
      Joined(cfg, At(cfg, sample, net, r), a, b);
      acts := a + b;
    }
  }

  /** Whatever the sample, and for every batch limit but zero and every retry limit: a run that ends
      with the row neither uploaded nor pending, its retries used up by failing sends. So the
      condition of EndToEnd.UploadedExactly on retries cannot be dropped either. */
  lemma GivenUp(cfg: Config, device: string, sample: Sample) returns (acts: seq<Action>)
    requires Renders(cfg.up, device) && DeviceName(device) && cfg.up.batchMax != 0 && cfg.up.retryMax >= 1
    ensures
      var s := Execution(cfg, Start(IDLE), acts);
      s.main == UPLOADER_JOINED && s.proto.net.connected && !s.proto.net.gaveUp && 1 in s.proto.db.rows &&
      !s.proto.db.rows[1].uploaded && s.proto.db.rows[1].retry == cfg.up.retryMax
  {
    RendersFits(cfg.up, device);
    var r := Row1(cfg, sample);
    var a := ToFirstRead(cfg, sample);
    var b, last := UntilGivenUp(cfg, sample, r, false);
    var c := LastQuery(cfg, sample, last, r.(retry := cfg.up.retryMax));
    Joined(cfg, Start(IDLE), a, b);
    Joined(cfg, Start(IDLE), a + b, c);
    acts := a + b + c;
  }

  /** Whatever the sample, and for every retry limit but zero: a run, connected at shutdown, whose
      first read of a row fails and which leaves the row pending. The exception of
      EndToEnd.PendingExactly for a SELECT that fails cannot be dropped either. */
  lemma SelectFailed(cfg: Config, sample: Sample) returns (acts: seq<Action>)
    requires cfg.up.retryMax > 0
    ensures
      var s := Execution(cfg, Start(IDLE), acts);
      s.main == UPLOADER_JOINED && s.proto.net.connected && s.proto.net.gaveUp && 1 in s.proto.db.rows &&
      IsPending(s.proto.db.rows[1], cfg.up.retryMax)
  {
    var r := Row1(cfg, sample);
    var net := Reading(cfg, r, Conn("", []), [], false);
    var done := net.(pc := Done, gaveUp := true);
    acts := ToFirstRead(cfg, sample);
    ReadingFails(cfg, sample, net, r);
    acts := Move(cfg, Start(IDLE), acts, Upload(ReadFails), At(cfg, sample, done, r));
    MainJoins(cfg, sample, done, r);
    acts := Move(cfg, Start(IDLE), acts, Main, At(cfg, sample, done, r).(main := UPLOADER_JOINED));
  }

  lemma ReadingFails(cfg: Config, sample: Sample, net: Net, row: Row<Item>)
    requires net.pc == Read(true) && !net.drained && net.conns != []
    ensures
      Next(cfg, At(cfg, sample, net, row), Upload(ReadFails)) ==
      At(cfg, sample, net.(pc := Done, gaveUp := true), row)
  {
  }

  /** The same row again, now behind the byte that had been accepted. */
  lemma ToSpoilt(cfg: Config, sample: Sample, again: Row<Item>) returns (acts: seq<Action>)
    requires Fits(cfg.up) && cfg.up.batchMax != 0 && cfg.up.retryMax > 1
    requires again.retry == 1 && !again.uploaded
    ensures
      var line := LineOf(cfg.up, again.payload);
      var s0 := At(cfg, sample, Reading(cfg, again, Conn(line[..1], []), [], true), again);
      var s := Execution(cfg, s0, acts);
      s.main == UPLOADER_JOINED && s.proto.db.rows == map[1 := again.(uploaded := true)] &&
      s.proto.net.log == [Entry(1, again.payload, line[..1])] &&
      s.proto.net.conns == [Conn(line[..1] + line, [Entry(1, again.payload, line[..1])])]
  {
    var line := LineOf(cfg.up, again.payload);
    var first := Conn(line[..1], []);
    var net := Reading(cfg, again, first, [], true);
    assert OneLine(cfg.up.body(again.payload));
    assert line[..1] == cfg.up.body(again.payload)[..1];
    assert Rest(first.bytes) == line[..1];
    ReadsRow(cfg, sample, net, again);
    var sending := Sending(cfg, net, again, line[..1]);
    var a := Move(cfg, At(cfg, sample, net, again), [], Upload(NextRow(1)), At(cfg, sample, sending, again));
    var b := Ends(cfg, sample, sending, again, first, line[..1]);
    Joined(cfg, At(cfg, sample, net, again), a, b);
    acts := a + b;
  }

  /** Whatever the sample, and for every batch limit but zero and every retry limit above one: a run
      in which the only row is marked as uploaded and its bytes have all arrived, yet the receiver
      counts no message, whatever reader of JSON it uses. The row whose send broke off was itself read
      again and sent behind its own first byte. */
  lemma MarkedInVain<M>(v: View<M>, cfg: Config, device: string, sample: Sample) returns (acts: seq<Action>)
    requires Understands(v, device, cfg.up) && DeviceName(device) && cfg.up.batchMax != 0 && cfg.up.retryMax > 1
    ensures
      var s := Execution(cfg, Start(IDLE), acts);
      s.main == UPLOADER_JOINED && 1 in s.proto.db.rows && s.proto.db.rows[1].uploaded && |s.proto.net.conns| == 1 &&
      AllMessages(v, [s.proto.net.conns[0].bytes]) == []
  {
    RendersFits(cfg.up, device);
    var again := Row1(cfg, sample).(retry := 1);
    var a := ToBroken(cfg, sample);
    var b := ToSpoilt(cfg, sample, again);
    Joined(cfg, Start(IDLE), a, b);
    acts := a + b;
    Uncounted(v, cfg, device, Execution(cfg, Start(IDLE), acts), again.payload);
  }

  /** One line behind one byte of itself is no message. */
  lemma Uncounted<M>(v: View<M>, cfg: Config, device: string, s: State, item: Item)
    requires Understands(v, device, cfg.up) && Fits(cfg.up)
    requires
      var line := LineOf(cfg.up, item);
      s.proto.net.conns == [Conn(line[..1] + line, [Entry(1, item, line[..1])])]
    ensures AllMessages(v, [s.proto.net.conns[0].bytes]) == []
  {
    var body, line := cfg.up.body(item), LineOf(cfg.up, item);
    assert OneLine(body) && line[..1] == body[..1];
    OneCompleteLine(body[..1] + body);
    assert line[..1] + line == (body[..1] + body) + "\n";
    DecodeText(v, device, cfg.up, Entry(1, item, body[..1]));
    var seen := [line[..1] + line];
    assert seen[..0] == [];
    MessagesSnoc(v.reader, [], body[..1] + body);
    assert [] + [body[..1] + body] == [body[..1] + body];
  }
}
