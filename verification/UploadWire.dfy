/** What the uploader's connections carry: their bytes, and the lines in them, across failed sends and
    reconnects. */
module UploadWire {
  import opened Json
  import opened Receiver
  import opened Sequences
  import opened UploadProtocol

  /** The line as it stands in the stream: the unfinished start of an earlier one, if any, first. */
  function TextOf(cfg: Settings, e: Entry): string { e.before + cfg.body(e.item) }

  function Texts(cfg: Settings, es: seq<Entry>): (ts: seq<string>)
    ensures |ts| == |es|
    decreases |es|
  {
    if es == [] then [] else Texts(cfg, es[..|es| - 1]) + [TextOf(cfg, es[|es| - 1])]
  }

  predicate Clean(es: seq<Entry>) { forall i :: 0 <= i < |es| ==> es[i].before == "" }

  /** The complete lines of a connection are those of its entries. */
  predicate ConnOk(cfg: Settings, c: Conn) { Lines(c.bytes) == Texts(cfg, c.lines) }

  function Flat(conns: seq<Conn>): seq<Entry>
    decreases |conns|
  {
    if conns == [] then [] else Flat(conns[..|conns| - 1]) + conns[|conns| - 1].lines
  }

  predicate Connected(pc: Pc) { Scanning(pc) || pc.Query? }

  ghost predicate ConnsOk(cfg: Settings, conns: seq<Conn>) {
    forall i :: 0 <= i < |conns| ==> ConnOk(cfg, conns[i])
  }

  /** The connection ends in what of the line in hand was accepted, behind what was left before. */
  predicate TailOk(cfg: Settings, net: Net) {
    net.conns != [] && net.pc.Send? ==>
      net.pc.k < |LineOf(cfg, net.pc.item)| &&
      Rest(Current(net.conns).bytes) == net.pc.before + LineOf(cfg, net.pc.item)[..net.pc.k]
  }

  ghost predicate AllClean(conns: seq<Conn>) {
    forall i :: 0 <= i < |conns| ==> Clean(conns[i].lines)
  }

  ghost predicate ClosedClean(conns: seq<Conn>) {
    forall i :: 0 <= i < |conns| - 1 ==> Clean(conns[i].lines)
  }

  /** No line is spoilt on a connection that the main loop has closed, and none on the last one until
      a send fails in the drain: the main loop closes the connection that broke. */
  ghost predicate CleanOk(net: Net) {
    ClosedClean(net.conns) &&
    (!net.broke ==>
      AllClean(net.conns) &&
      (net.conns != [] && net.connected && !net.pc.Fail? ==>
        if net.pc.Send? then net.pc.before == "" else Rest(Current(net.conns).bytes) == ""))
  }

  /** Where the uploader is says whether it holds a connection. */
  predicate FlowOk(net: Net) {
    (net.connected ==> net.conns != []) && (Connected(net.pc) ==> net.connected) &&
    (net.pc.Connect? ==> !net.connected) && (net.pc.Fail? && net.pc.drain ==> net.broke) &&
    (net.broke ==> InDrain(net.pc) || net.pc.Done?)
  }

  ghost predicate WireInv(cfg: Settings, net: Net) {
    FlowOk(net) && net.log == Flat(net.conns) && ConnsOk(cfg, net.conns) && TailOk(cfg, net) && CleanOk(net)
  }

  lemma ConnsSnoc(cfg: Settings, conns: seq<Conn>, c: Conn)
    requires ConnsOk(cfg, conns) && ConnOk(cfg, c)
    ensures ConnsOk(cfg, conns + [c])
  {
  }

  lemma FlatSnoc(conns: seq<Conn>, c: Conn)
    ensures Flat(conns + [c]) == Flat(conns) + c.lines
  {
    assert (conns + [c])[..|conns|] == conns;
  }

  lemma FlatCurrent(conns: seq<Conn>, c: Conn)
    requires conns != []
    ensures Flat(WithCurrent(conns, c)) == Flat(conns[..|conns| - 1]) + c.lines
    ensures Flat(conns) == Flat(conns[..|conns| - 1]) + Current(conns).lines
  {
    FlatSnoc(conns[..|conns| - 1], c);
  }

  lemma TextsSnoc(cfg: Settings, es: seq<Entry>, e: Entry)
    ensures Texts(cfg, es + [e]) == Texts(cfg, es) + [TextOf(cfg, e)]
  {
    assert (es + [e])[..|es|] == es;
  }

  /** Part of a line without its newline. */
  lemma PartAccepted(body: string, bytes: string, before: string, k: nat, n: nat)
    requires OneLine(body) && k + n <= |body| && Rest(bytes) == before + body[..k]
    ensures Lines(bytes + body[k..k + n]) == Lines(bytes)
    ensures Rest(bytes + body[k..k + n]) == before + body[..k + n]
  {
    LinesExtend(bytes, body[k..k + n]);
    assert body[..k + n][..k] == body[..k] && body[..k + n][k..] == body[k..k + n];
    Regrouped(before, body[..k + n], k);
  }

  lemma Regrouped(before: string, body: string, k: nat)
    requires k <= |body|
    ensures (before + body[..k]) + body[k..] == before + body
  {
    assert body[..k] + body[k..] == body;
    Associative(before, body[..k], body[k..]);
  }

  /** The rest of a line with its newline: one more line, and nothing left over. */
  lemma LineAccepted(body: string, bytes: string, before: string, k: nat)
    requires OneLine(body) && k <= |body| && Rest(bytes) == before + body[..k]
    ensures Lines(bytes + (body[k..] + "\n")) == Lines(bytes) + [before + body]
    ensures Rest(bytes + (body[k..] + "\n")) == ""
  {
    LinesExtend(bytes, body[k..]);
    Regrouped(before, body, k);
  }

  lemma WithNewline(body: string, k: nat)
    requires k <= |body|
    ensures (body + "\n")[..k] == body[..k] && (body + "\n")[k..] == body[k..] + "\n"
  {
  }

  lemma NoNewline(body: string, k: nat, m: nat)
    requires k <= m <= |body|
    ensures (body + "\n")[k..m] == body[k..m]
  {
  }

  /** The same of the line with its newline, as long as that is not part of it. */
  lemma PartOfLine(body: string, bytes: string, before: string, k: nat, n: nat)
    requires OneLine(body) && k + n <= |body| && Rest(bytes) == before + (body + "\n")[..k]
    ensures Lines(bytes + (body + "\n")[k..k + n]) == Lines(bytes)
    ensures Rest(bytes + (body + "\n")[k..k + n]) == before + (body + "\n")[..k + n]
  {
    WithNewline(body, k);
    WithNewline(body, k + n);
    NoNewline(body, k, k + n);
    PartAccepted(body, bytes, before, k, n);
  }

  lemma Replaced(cfg: Settings, conns: seq<Conn>, d: Conn)
    requires conns != [] && ConnsOk(cfg, conns) && ConnOk(cfg, d)
    ensures
      var to := WithCurrent(conns, d);
      to != [] && Current(to) == d && ConnsOk(cfg, to) &&
      (ClosedClean(conns) ==> ClosedClean(to)) && (AllClean(conns) && Clean(d.lines) ==> AllClean(to))
  {
  }

  /** The current connection after some of the line went out. */
  lemma PartConn(cfg: Settings, net: Net, n: nat, d: Conn)
    requires Fits(cfg) && net.conns != [] && net.pc.Send? && TailOk(cfg, net)
    requires net.pc.k + n < |LineOf(cfg, net.pc.item)|
    requires
      var c := Current(net.conns);
      d == c.(bytes := c.bytes + LineOf(cfg, net.pc.item)[net.pc.k..net.pc.k + n])
    ensures ConnOk(cfg, Current(net.conns)) ==> ConnOk(cfg, d)
    ensures Rest(d.bytes) == net.pc.before + LineOf(cfg, net.pc.item)[..net.pc.k + n]
  {
    PartOfLine(cfg.body(net.pc.item), Current(net.conns).bytes, net.pc.before, net.pc.k, n);
  }

  /** ... and after the rest of it did. */
  lemma WholeConn(cfg: Settings, net: Net, d: Conn)
    requires Fits(cfg) && net.conns != [] && net.pc.Send? && TailOk(cfg, net)
    requires
      var c := Current(net.conns);
      var e := Entry(net.pc.id, net.pc.item, net.pc.before);
      d == Conn(c.bytes + LineOf(cfg, net.pc.item)[net.pc.k..], c.lines + [e])
    ensures ConnOk(cfg, Current(net.conns)) ==> ConnOk(cfg, d)
    ensures Rest(d.bytes) == ""
  {
    var body, c := cfg.body(net.pc.item), Current(net.conns);
    WithNewline(body, net.pc.k);
    LineAccepted(body, c.bytes, net.pc.before, net.pc.k);
    TextsSnoc(cfg, c.lines, Entry(net.pc.id, net.pc.item, net.pc.before));
  }

  lemma PartKeeps(cfg: Settings, net: Net, to: Net, d: Conn)
    requires WireInv(cfg, net) && net.conns != [] && net.pc.Send? && ConnOk(cfg, d)
    requires to.conns == WithCurrent(net.conns, d) && d.lines == Current(net.conns).lines
    requires to.pc.Send? && to.pc == net.pc.(k := to.pc.k) && to.pc.k < |LineOf(cfg, to.pc.item)|
    requires Rest(d.bytes) == to.pc.before + LineOf(cfg, to.pc.item)[..to.pc.k]
    requires to.log == net.log && to.connected == net.connected && to.broke == net.broke
    ensures WireInv(cfg, to)
  {
    Replaced(cfg, net.conns, d);
    FlatCurrent(net.conns, d);
  }

  lemma WholeKeeps(cfg: Settings, net: Net, to: Net, d: Conn, e: Entry)
    requires WireInv(cfg, net) && net.conns != [] && net.pc.Send? && ConnOk(cfg, d)
    requires to.conns == WithCurrent(net.conns, d) && d.lines == Current(net.conns).lines + [e]
    requires e.before == net.pc.before && Rest(d.bytes) == ""
    requires to.pc == Mark(net.pc.id, net.pc.drain) && to.log == net.log + [e]
    requires to.connected == net.connected && to.broke == net.broke
    ensures WireInv(cfg, to)
  {
    Replaced(cfg, net.conns, d);
    FlatCurrent(net.conns, d);
    Associative(Flat(net.conns[..|net.conns| - 1]), Current(net.conns).lines, [e]);
  }

  lemma AcceptedPart(cfg: Settings, net: Net, n: nat, to: Net)
    requires WireInv(cfg, net) && Fits(cfg) && net.conns != [] && net.pc.Send?
    requires net.pc.k + n < |LineOf(cfg, net.pc.item)| && to == Accepted(cfg, net, n)
    ensures WireInv(cfg, to)
  {
    var c, k := Current(net.conns), net.pc.k;
    var d := c.(bytes := c.bytes + LineOf(cfg, net.pc.item)[k..k + n]);
    PartConn(cfg, net, n, d);
    PartKeeps(cfg, net, to, d);
  }

  lemma AcceptedWhole(cfg: Settings, net: Net, n: nat, to: Net)
    requires WireInv(cfg, net) && Fits(cfg) && net.conns != [] && net.pc.Send?
    requires net.pc.k + n == |LineOf(cfg, net.pc.item)| && to == Accepted(cfg, net, n)
    ensures WireInv(cfg, to)
  {
    var c, line, k := Current(net.conns), LineOf(cfg, net.pc.item), net.pc.k;
    assert line[k..k + n] == line[k..];
    var e := Entry(net.pc.id, net.pc.item, net.pc.before);
    var d := Conn(c.bytes + line[k..], c.lines + [e]);
    WholeConn(cfg, net, d);
    WholeKeeps(cfg, net, to, d, e);
  }

  lemma BreakKeeps(cfg: Settings, net: Net)
    requires WireInv(cfg, net) && net.pc.Send?
    ensures WireInv(cfg, net.(pc := Fail(net.pc.id, net.pc.drain), broke := net.broke || net.pc.drain))
  {
  }

  lemma ConnectKeeps(cfg: Settings, net: Net)
    requires WireInv(cfg, net) && net.pc.Connect?
    ensures WireInv(cfg, net.(connected := true, conns := net.conns + [Conn("", [])], pc := Query(false)))
  {
    ConnsSnoc(cfg, net.conns, Conn("", []));
    FlatSnoc(net.conns, Conn("", []));
  }

  lemma ReadWireKeeps(cfg: Settings, net: Net, scan: Scan, id: nat, item: Item)
    requires WireInv(cfg, net) && net.pc.Read?
    ensures
      var pc := Send(id, item, 0, Rest(Current(net.conns).bytes), net.pc.drain);
      WireInv(cfg, net.(scan := scan, drained := true, pc := pc))
  {
    assert LineOf(cfg, item)[..0] == "";
  }

  /** After a failed send the drain goes on on the same connection. */
  lemma FailedDrain(cfg: Settings, net: Net, to: Net)
    requires WireInv(cfg, net) && net.pc.Fail? && net.broke && to == net.(pc := Query(true))
    ensures WireInv(cfg, to)
  {
  }

  /** Steps that neither send nor connect. */
  lemma QuietKeeps(cfg: Settings, net: Net, to: Net)
    requires WireInv(cfg, net) && to.conns == net.conns && to.log == net.log && to.broke == net.broke
    requires !net.pc.Send? && !to.pc.Send? && (to.connected ==> net.connected) && FlowOk(to)
    requires net.pc.Fail? ==> !to.connected
    ensures WireInv(cfg, to)
  {
  }

  lemma SendWire(cfg: Settings, p: Proto, a: Act, to: Net)
    requires WireInv(cfg, p.net) && Fits(cfg) && p.net.conns != [] && p.net.pc.Send?
    requires to == SendStep(cfg, p, a).net && to != p.net
    ensures WireInv(cfg, to)
  {
    if a.Accept? {
      if p.net.pc.k + a.n < |LineOf(cfg, p.net.pc.item)| {
        AcceptedPart(cfg, p.net, a.n, to);
      } else {
        AcceptedWhole(cfg, p.net, a.n, to);
      }
    } else {
      BreakKeeps(cfg, p.net);
    }
  }

  lemma ReadWire(cfg: Settings, p: Proto, a: Act, to: Net)
    requires WireInv(cfg, p.net) && Fits(cfg) && p.net.conns != [] && p.net.pc.Read?
    requires to == ReadStep(cfg, p, a).net && to != p.net
    ensures WireInv(cfg, to)
  {
    if to.pc.Send? {
      ReadWireKeeps(cfg, p.net, to.scan, to.pc.id, to.pc.item);
      assert to == p.net.(scan := to.scan, drained := true, pc := to.pc);
    } else {
      QuietKeeps(cfg, p.net, to);
    }
  }

  /** What such a step leaves alone. */
  predicate Quiet(net: Net, to: Net) {
    to.conns == net.conns && to.log == net.log && to.broke == net.broke &&
    !to.pc.Send? && (to.connected ==> net.connected) && FlowOk(to) &&
    (net.pc.Fail? ==> if net.pc.drain then to == net.(pc := Query(true)) else !to.connected)
  }

  lemma MoveIsQuiet(cfg: Settings, shutdown: bool, p: Proto, a: Act, to: Net)
    requires FlowOk(p.net) && Moving(p.net.pc)
    requires !(p.net.pc.Connect? && a == Go) && to == Step(cfg, shutdown, p, a).net
    ensures Quiet(p.net, to)
  {
  }

  lemma QueryIsQuiet(cfg: Settings, shutdown: bool, p: Proto, a: Act, to: Net)
    requires FlowOk(p.net) && p.net.pc.Query? && to == Step(cfg, shutdown, p, a).net
    ensures Quiet(p.net, to)
  {
  }

  lemma UpdateIsQuiet(cfg: Settings, shutdown: bool, p: Proto, a: Act, to: Net)
    requires FlowOk(p.net) && Updating(p.net.pc) && to == Step(cfg, shutdown, p, a).net
    ensures Quiet(p.net, to)
  {
  }

  lemma QuietMoves(cfg: Settings, shutdown: bool, p: Proto, a: Act, to: Net)
    requires FlowOk(p.net) && !p.net.pc.Read? && !p.net.pc.Send?
    requires !(p.net.pc.Connect? && a == Go) && to == Step(cfg, shutdown, p, a).net
    ensures Quiet(p.net, to)
  {
    if Moving(p.net.pc) {
      MoveIsQuiet(cfg, shutdown, p, a, to);
    } else if p.net.pc.Query? {
      QueryIsQuiet(cfg, shutdown, p, a, to);
    } else {
      UpdateIsQuiet(cfg, shutdown, p, a, to);
    }
  }

  lemma QuietWire(cfg: Settings, shutdown: bool, p: Proto, a: Act, to: Net)
    requires WireInv(cfg, p.net) && !p.net.pc.Read? && !p.net.pc.Send?
    requires !(p.net.pc.Connect? && a == Go) && to == Step(cfg, shutdown, p, a).net
    ensures WireInv(cfg, to)
  {
    QuietMoves(cfg, shutdown, p, a, to);
    if p.net.pc.Fail? && p.net.pc.drain {
      FailedDrain(cfg, p.net, to);
    } else {
      QuietKeeps(cfg, p.net, to);
    }
  }

  /** Every step of the uploader keeps the connections, the lines in them and the log together. */
  lemma StepKeepsWire(cfg: Settings, shutdown: bool, p: Proto, a: Act)
    requires WireInv(cfg, p.net) && Fits(cfg)
    ensures WireInv(cfg, Step(cfg, shutdown, p, a).net)
  {
    var to := Step(cfg, shutdown, p, a).net;
    if to != p.net {
      if p.net.pc.Read? {
        ReadWire(cfg, p, a, to);
      } else if p.net.pc.Send? {
        SendWire(cfg, p, a, to);
      } else if p.net.pc.Connect? && a == Go {
        ConnectKeeps(cfg, p.net);
      } else {
        QuietWire(cfg, shutdown, p, a, to);
      }
    }
  }
}
