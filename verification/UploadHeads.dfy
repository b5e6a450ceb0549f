/** What can stand before a line on a connection: nothing, or the start of an earlier line, which
    begins with a brace. So a spoilt line is no JSON text at all, whoever reads it. */
module UploadHeads {
  import opened Json
  import opened JsonBalance
  import opened Receiver
  import opened UploadProtocol
  import opened UploadWire

  predicate Braced(s: string) { s == "" || BeginsObject(s) }

  predicate LogBraced(log: seq<Entry>) { forall i :: 0 <= i < |log| ==> Braced(log[i].before) }

  predicate HeadInv(net: Net) {
    (net.conns != [] ==> Braced(Rest(Current(net.conns).bytes))) && (net.pc.Send? ==> Braced(net.pc.before)) &&
    LogBraced(net.log)
  }

  lemma PartHead(cfg: Settings, net: Net, n: nat, to: Net)
    requires HeadInv(net) && WireInv(cfg, net) && Fits(cfg) && net.conns != [] && net.pc.Send?
    requires 0 < n && net.pc.k + n < |LineOf(cfg, net.pc.item)| && to == Accepted(cfg, net, n)
    ensures HeadInv(to)
  {
    var c, line, k := Current(net.conns), LineOf(cfg, net.pc.item), net.pc.k;
    var d := c.(bytes := c.bytes + line[k..k + n]);
    PartConn(cfg, net, n, d);
    BracedStart(net.pc.before, cfg.body(net.pc.item), k + n);
    assert Current(to.conns) == d;
  }

  lemma BracedStart(before: string, body: string, k: nat)
    requires Braced(before) && BeginsObject(body) && 0 < k <= |body|
    ensures Braced(before + (body + "\n")[..k])
  {
    var s := before + (body + "\n")[..k];
    if before == "" {
      assert s[0] == body[0];
    } else {
      assert s[0] == before[0];
    }
  }

  lemma WholeHead(cfg: Settings, net: Net, n: nat, to: Net)
    requires HeadInv(net) && WireInv(cfg, net) && Fits(cfg) && net.conns != [] && net.pc.Send?
    requires net.pc.k + n == |LineOf(cfg, net.pc.item)| && to == Accepted(cfg, net, n)
    ensures HeadInv(to)
  {
    var c, line, k := Current(net.conns), LineOf(cfg, net.pc.item), net.pc.k;
    assert line[k..k + n] == line[k..];
    var d := Conn(c.bytes + line[k..], c.lines + [Entry(net.pc.id, net.pc.item, net.pc.before)]);
    WholeConn(cfg, net, d);
    assert Current(to.conns) == d;
  }

  lemma SendHead(cfg: Settings, p: Proto, a: Act)
    requires HeadInv(p.net) && WireInv(cfg, p.net) && Fits(cfg)
    requires p.net.conns != [] && p.net.pc.Send?
    ensures HeadInv(SendStep(cfg, p, a).net)
  {
    var to := SendStep(cfg, p, a).net;
    if a.Accept? && to != p.net {
      if p.net.pc.k + a.n < |LineOf(cfg, p.net.pc.item)| {
        PartHead(cfg, p.net, a.n, to);
      } else {
        WholeHead(cfg, p.net, a.n, to);
      }
    }
  }

  lemma ReadHead(cfg: Settings, p: Proto, a: Act)
    requires HeadInv(p.net) && p.net.conns != [] && p.net.pc.Read?
    ensures HeadInv(ReadStep(cfg, p, a).net)
  {
  }

  lemma ConnectHead(net: Net)
    requires HeadInv(net)
    ensures HeadInv(net.(connected := true, conns := net.conns + [Conn("", [])], pc := Query(false)))
  {
  }

  /** Every step of the uploader keeps it. */
  lemma StepHead(cfg: Settings, shutdown: bool, p: Proto, a: Act)
    requires HeadInv(p.net) && WireInv(cfg, p.net) && Fits(cfg)
    ensures HeadInv(Step(cfg, shutdown, p, a).net)
  {
    if p.net.pc.Send? {
      if p.net.conns != [] {
        SendHead(cfg, p, a);
      }
    } else if p.net.pc.Read? {
      if p.net.conns != [] {
        ReadHead(cfg, p, a);
      }
    } else if p.net.pc.Connect? && a == Go {
      ConnectHead(p.net);
    } else {
      QuietMoves(cfg, shutdown, p, a, Step(cfg, shutdown, p, a).net);
    }
  }

  /** A spoilt line is not balanced, an unspoilt one is: no reader of JSON takes the one, and every
      reader has to take the other for an object. */
  lemma SpoiltUnbalanced(device: string, cfg: Settings, e: Entry)
    requires Plain(device) && Renders(cfg, device) && Braced(e.before)
    ensures Balanced(TextOf(cfg, e)) <==> e.before == ""
  {
    if e.before == "" {
      assert TextOf(cfg, e) == Body(device, e.item.sample);
      BodyBalanced(device, e.item.sample);
    } else {
      GluedUnbalanced(e.before, device, e.item.sample);
    }
  }
}
