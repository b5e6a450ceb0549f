/** What the receiver counts of the uploader's lines, whatever reader of JSON it uses: the messages on
    each connection and over all of them, across failed sends and reconnects. */
module Delivery {
  import opened Json
  import opened JsonBalance
  import opened Options
  import opened Receiver
  import opened Sequences
  import opened UploadHeads
  import opened UploadProtocol
  import opened UploadWire

  /** A reader, and the message that each row's line is to it. */
  datatype View<!M> = View(reader: Reader<M>, message: Item -> M)

  /** The uploader renders for the device, and the reader is one of JSON: of the lines that begin with
      a brace it decodes balanced ones only, and among them every row's body, as a message that it can
      print. */
  ghost predicate Understands<M>(v: View<M>, device: string, cfg: Settings) {
    Plain(device) && Renders(cfg, device) &&
    (forall line: string :: BeginsObject(line) && v.reader.decode(line).Some? ==> Balanced(line)) &&
    forall item: Item ::
      v.reader.decode(cfg.body(item)) == Some(v.message(item)) && v.reader.printed(v.message(item))
  }

  function FlatView(device: string): View<Message> {
    View(FlatReader(), (item: Item) => Fields(device, item.sample))
  }

  /** The reader of flat objects is one. */
  lemma FlatUnderstands(device: string, cfg: Settings)
    requires Plain(device) && Renders(cfg, device)
    ensures Understands(FlatView(device), device, cfg)
  {
    forall line: string | Decode(line).Some?
      ensures Balanced(line)
    {
      DecodeBalanced(line);
    }
    forall item: Item
      ensures Decode(cfg.body(item)) == Some(Fields(device, item.sample)) && Printed(Fields(device, item.sample))
    {
      JsonRoundTrip(device, item.sample);
      UploadedPrinted(device, item.sample);
    }
  }

  // ---------------------------------------------------------------------------------------
  // Lines and messages of a list of entries
  // ---------------------------------------------------------------------------------------

  /** The entries whose line is not spoilt by an earlier failure. */
  function Delivered(es: seq<Entry>): seq<Entry>
    decreases |es|
  {
    if es == [] then []
    else Delivered(es[..|es| - 1]) + if es[|es| - 1].before == "" then [es[|es| - 1]] else []
  }

  function MessagesFor<M>(v: View<M>, es: seq<Entry>): (ms: seq<M>)
    ensures |ms| == |es|
    decreases |es|
  {
    if es == [] then [] else MessagesFor(v, es[..|es| - 1]) + [v.message(es[|es| - 1].item)]
  }

  lemma MessagesForSnoc<M>(v: View<M>, es: seq<Entry>, e: Entry)
    ensures MessagesFor(v, es + [e]) == MessagesFor(v, es) + [v.message(e.item)]
  {
    assert (es + [e])[..|es|] == es;
  }

  lemma {:induction false} MessagesForPrefix<M>(v: View<M>, es: seq<Entry>, n: nat)
    requires n <= |es|
    ensures MessagesFor(v, es)[..n] == MessagesFor(v, es[..n])
    decreases |es|
  {
    if n == |es| {
      assert es[..n] == es;
    } else {
      var init := es[..|es| - 1];
      MessagesForPrefix(v, init, n);
      assert init[..n] == es[..n];
    }
  }

  lemma {:induction false} MessagesForAppend<M>(v: View<M>, a: seq<Entry>, b: seq<Entry>)
    ensures MessagesFor(v, a + b) == MessagesFor(v, a) + MessagesFor(v, b)
    decreases |b|
  {
    if b == [] {
      assert a + b == a;
    } else {
      assert (a + b)[..|a + b| - 1] == a + b[..|b| - 1];
      MessagesForAppend(v, a, b[..|b| - 1]);
    }
  }

  lemma {:induction false} CleanDelivered(es: seq<Entry>)
    requires Clean(es)
    ensures Delivered(es) == es
    decreases |es|
  {
    if es != [] {
      var init, e := es[..|es| - 1], es[|es| - 1];
      assert es == init + [e];
      CleanDelivered(init);
      assert Delivered(es) == Delivered(init) + [e];
    }
  }

  lemma {:induction false} DeliveredSub(es: seq<Entry>)
    ensures Sub(Delivered(es), es)
    decreases |es|
  {
    if es != [] {
      var init, e := es[..|es| - 1], es[|es| - 1];
      DeliveredSub(init);
      SubSnoc(Delivered(init), init, e);
      assert es == init + [e];
      assert Delivered(es) == Delivered(init) + [e] || Delivered(es) == Delivered(init);
    }
  }

  lemma {:induction false} DeliveredAppend(a: seq<Entry>, b: seq<Entry>)
    ensures Delivered(a + b) == Delivered(a) + Delivered(b)
    decreases |b|
  {
    if b == [] {
      assert a + b == a;
    } else {
      var init, e := b[..|b| - 1], b[|b| - 1];
      assert (a + b)[..|a + b| - 1] == a + init;
      DeliveredAppend(a, init);
      Associative(Delivered(a), Delivered(init), if e.before == "" then [e] else []);
    }
  }

  /** Nothing is missing among the delivered lines exactly when none is spoilt. */
  lemma {:induction false} DeliveredAll(es: seq<Entry>)
    ensures |Delivered(es)| <= |es| && (|Delivered(es)| == |es| <==> Clean(es))
    decreases |es|
  {
    if es != [] {
      var init, e := es[..|es| - 1], es[|es| - 1];
      DeliveredAll(init);
      assert Clean(es) <==> Clean(init) && e.before == "";
    }
  }

  /** A line is among the delivered ones exactly when it is not spoilt. */
  lemma {:induction false} DeliveredMember(es: seq<Entry>, e: Entry)
    ensures e in Delivered(es) <==> e in es && e.before == ""
    decreases |es|
  {
    if es != [] {
      var init, last := es[..|es| - 1], es[|es| - 1];
      DeliveredMember(init, e);
      assert es == init + [last];
    }
  }

  lemma {:induction false} SubAscending(a: seq<Entry>, b: seq<Entry>)
    requires Sub(a, b) && AscendingIds(b)
    ensures AscendingIds(a)
    decreases |b|
  {
    if b != [] {
      var init := b[..|b| - 1];
      if Sub(a, init) {
        SubAscending(a, init);
      } else {
        var front := a[..|a| - 1];
        SubAscending(front, init);
        forall i, j | 0 <= i < j < |a|
          ensures a[i].id < a[j].id
        {
          if j == |a| - 1 {
            SubMember(front, init, front[i]);
          } else {
            assert front[i].id < front[j].id;
          }
        }
      }
    }
  }

  // ---------------------------------------------------------------------------------------
  // One connection
  // ---------------------------------------------------------------------------------------

  /** The messages on the complete lines of what has arrived. */
  function MessagesOn<M>(v: View<M>, seen: string): seq<M> { MessagesBy(v.reader, Lines(seen)) }

  lemma BodyIsNoSpace(device: string, cfg: Settings, item: Item)
    requires Renders(cfg, device)
    ensures !Blank(cfg.body(item))
  {
    assert cfg.body(item)[0] == '{' && cfg.body(item)[0] in cfg.body(item);
  }

  /** A line is a message exactly when nothing was left unfinished before it, and then it is that of
      the row's own sample. */
  lemma DecodeText<M>(v: View<M>, device: string, cfg: Settings, e: Entry)
    requires Understands(v, device, cfg) && Braced(e.before)
    ensures MessageOf(v.reader, TextOf(cfg, e)) == if e.before == "" then [v.message(e.item)] else []
  {
    if e.before == "" {
      assert TextOf(cfg, e) == cfg.body(e.item);
      BodyIsNoSpace(device, cfg, e.item);
    } else {
      assert BeginsObject(TextOf(cfg, e));
      GluedUnbalanced(e.before, device, e.item.sample);
    }
  }

  lemma {:induction false} MessagesOfTexts<M>(v: View<M>, device: string, cfg: Settings, es: seq<Entry>)
    requires Understands(v, device, cfg) && LogBraced(es)
    ensures MessagesBy(v.reader, Texts(cfg, es)) == MessagesFor(v, Delivered(es))
    decreases |es|
  {
    if es != [] {
      var init, e := es[..|es| - 1], es[|es| - 1];
      MessagesOfTexts(v, device, cfg, init);
      DecodeText(v, device, cfg, e);
      MessagesSnoc(v.reader, Texts(cfg, init), TextOf(cfg, e));
      if e.before == "" {
        MessagesForSnoc(v, Delivered(init), e);
      } else {
        assert Delivered(es) == Delivered(init);
      }
    }
  }

  /** However much of a connection has arrived, the messages counted on it are the first of its
      unspoilt lines, in order: nothing else a connection carries ever passes for a message. */
  lemma Received<M>(v: View<M>, device: string, cfg: Settings, c: Conn, seen: string)
    requires Understands(v, device, cfg) && ConnOk(cfg, c) && LogBraced(c.lines) && IsPrefix(seen, c.bytes)
    ensures
      var n := |MessagesOn(v, seen)|;
      n <= |Delivered(c.lines)| && MessagesOn(v, seen) == MessagesFor(v, Delivered(c.lines)[..n])
  {
    MessagesOfPrefix(v.reader, seen, c.bytes);
    MessagesOfTexts(v, device, cfg, c.lines);
    MessagesForPrefix(v, Delivered(c.lines), |MessagesOn(v, seen)|);
  }

  lemma {:induction false} TextsPrefix(cfg: Settings, es: seq<Entry>, n: nat)
    requires n <= |es|
    ensures Texts(cfg, es)[..n] == Texts(cfg, es[..n])
    decreases |es|
  {
    if n == |es| {
      assert es[..n] == es;
    } else {
      var init := es[..|es| - 1];
      TextsPrefix(cfg, init, n);
      assert init[..n] == es[..n];
    }
  }

  lemma CleanMessages<M>(v: View<M>, device: string, cfg: Settings, es: seq<Entry>)
    requires Understands(v, device, cfg) && Clean(es)
    ensures MessagesBy(v.reader, Texts(cfg, es)) == MessagesFor(v, es)
  {
    MessagesOfTexts(v, device, cfg, es);
    CleanDelivered(es);
  }

  lemma CleanFramed<M>(v: View<M>, device: string, cfg: Settings, c: Conn, seen: string)
    requires Understands(v, device, cfg) && ConnOk(cfg, c) && Clean(c.lines) && IsPrefix(seen, c.bytes)
    ensures
      var n := |Lines(seen)|;
      n <= |c.lines| && Lines(seen) == Texts(cfg, c.lines[..n]) && MessagesOn(v, seen) == MessagesFor(v, c.lines[..n])
  {
    LinesOfPrefix(seen, c.bytes);
    var n := |Lines(seen)|;
    TextsPrefix(cfg, c.lines, n);
    CleanMessages(v, device, cfg, c.lines[..n]);
  }

  /** On a connection of the main loop, and on the last one until a send fails in the drain, the
      complete lines a receiver finds are the first ones the uploader sent completely on it, and each
      of them is a message. */
  lemma FramedUntilBreak<M>(v: View<M>, device: string, cfg: Settings, net: Net, i: nat, seen: string)
    requires Understands(v, device, cfg) && WireInv(cfg, net)
    requires i < |net.conns| && (i < |net.conns| - 1 || !net.broke) && IsPrefix(seen, net.conns[i].bytes)
    ensures
      var n, lines := |Lines(seen)|, net.conns[i].lines;
      n <= |lines| && Clean(lines) &&
      Lines(seen) == Texts(cfg, lines[..n]) && MessagesOn(v, seen) == MessagesFor(v, lines[..n])
  {
    assert ConnOk(cfg, net.conns[i]) && Clean(net.conns[i].lines);
    CleanFramed(v, device, cfg, net.conns[i], seen);
  }

  lemma {:induction false} MessagesPrinted<M>(v: View<M>, device: string, cfg: Settings, es: seq<Entry>)
    requires Understands(v, device, cfg)
    ensures AllPrinted(v.reader, MessagesFor(v, es))
    decreases |es|
  {
    if es != [] {
      MessagesPrinted(v, device, cfg, es[..|es| - 1]);
      assert v.reader.decode(cfg.body(es[|es| - 1].item)) == Some(v.message(es[|es| - 1].item));
    }
  }

  /** The receiver never dies on an uploader's connection: a session that has seen this much of it
      counts all the messages on it. */
  lemma NeverDies<M>(v: View<M>, device: string, cfg: Settings, c: Conn, seen: string, counted: seq<M>, died: bool)
    requires Understands(v, device, cfg) && ConnOk(cfg, c) && LogBraced(c.lines) && IsPrefix(seen, c.bytes)
    requires CountedOn(v.reader, counted, seen, died)
    ensures !died && counted == MessagesOn(v, seen)
  {
    Received(v, device, cfg, c, seen);
    MessagesPrinted(v, device, cfg, Delivered(c.lines)[..|MessagesOn(v, seen)|]);
  }

  // ---------------------------------------------------------------------------------------
  // All connections
  // ---------------------------------------------------------------------------------------

  /** Everything the receiver counts over all connections ... */
  function AllMessages<M>(v: View<M>, seen: seq<string>): seq<M>
    decreases |seen|
  {
    if seen == [] then [] else AllMessages(v, seen[..|seen| - 1]) + MessagesOn(v, seen[|seen| - 1])
  }

  /** ... and the lines those messages came from. */
  function Got<M>(v: View<M>, seen: seq<string>, conns: seq<Conn>): seq<Entry>
    requires |seen| == |conns|
    decreases |seen|
  {
    if seen == [] then []
    else
      var es, n := Delivered(conns[|conns| - 1].lines), |MessagesOn(v, seen[|seen| - 1])|;
      Got(v, seen[..|seen| - 1], conns[..|conns| - 1]) + if n <= |es| then es[..n] else es
  }

  ghost predicate SeenOf(seen: seq<string>, conns: seq<Conn>) {
    |seen| == |conns| && forall i :: 0 <= i < |seen| ==> IsPrefix(seen[i], conns[i].bytes)
  }

  lemma BracedParts(a: seq<Entry>, b: seq<Entry>)
    requires LogBraced(a + b)
    ensures LogBraced(a) && LogBraced(b)
  {
    forall i | 0 <= i < |a|
      ensures Braced(a[i].before)
    {
      assert (a + b)[i] == a[i];
    }
    forall i | 0 <= i < |b|
      ensures Braced(b[i].before)
    {
      assert (a + b)[|a| + i] == b[i];
    }
  }

  /** The connections before the last one, and the last one. */
  lemma AllBefore(cfg: Settings, conns: seq<Conn>)
    requires conns != [] && ConnsOk(cfg, conns) && LogBraced(Flat(conns))
    ensures ConnsOk(cfg, conns[..|conns| - 1]) && LogBraced(Flat(conns[..|conns| - 1]))
    ensures ConnOk(cfg, conns[|conns| - 1]) && LogBraced(conns[|conns| - 1].lines)
  {
    BracedParts(Flat(conns[..|conns| - 1]), conns[|conns| - 1].lines);
  }

  lemma SeenBefore(seen: seq<string>, conns: seq<Conn>)
    requires seen != [] && SeenOf(seen, conns)
    ensures SeenOf(seen[..|seen| - 1], conns[..|seen| - 1])
    ensures IsPrefix(seen[|seen| - 1], conns[|seen| - 1].bytes)
  {
  }

  lemma {:induction false} BracedConn(conns: seq<Conn>, i: nat)
    requires LogBraced(Flat(conns)) && i < |conns|
    ensures LogBraced(conns[i].lines)
    decreases |conns|
  {
    var init := conns[..|conns| - 1];
    BracedParts(Flat(init), conns[|conns| - 1].lines);
    if i < |init| {
      BracedConn(init, i);
    }
  }

  lemma ReceivedOn<M>(v: View<M>, device: string, cfg: Settings, c: Conn, seen: string,
                      got: seq<Entry>, before: seq<Entry>)
    requires Understands(v, device, cfg) && ConnOk(cfg, c) && LogBraced(c.lines) && IsPrefix(seen, c.bytes)
    requires Sub(got, before)
    ensures
      var es, n := Delivered(c.lines), |MessagesOn(v, seen)|;
      n <= |es| && Sub(got + es[..n], before + c.lines) &&
      MessagesFor(v, got + es[..n]) == MessagesFor(v, got) + MessagesOn(v, seen)
  {
    Received(v, device, cfg, c, seen);
    var es, n := Delivered(c.lines), |MessagesOn(v, seen)|;
    DeliveredSub(c.lines);
    SubPrefix(es, c.lines, n);
    SubAppend(got, before, es[..n], c.lines);
    MessagesForAppend(v, got, es[..n]);
  }

  /** However much of each connection has arrived, the messages counted so far are those of a
      subsequence of the lines sent: none invented, none twice, none out of order. */
  lemma {:induction false} AllReceived<M>(v: View<M>, device: string, cfg: Settings,
                                          seen: seq<string>, conns: seq<Conn>)
    requires Understands(v, device, cfg) && ConnsOk(cfg, conns) && LogBraced(Flat(conns)) && SeenOf(seen, conns)
    ensures AllMessages(v, seen) == MessagesFor(v, Got(v, seen, conns)) && Sub(Got(v, seen, conns), Flat(conns))
    decreases |seen|
  {
    if seen != [] {
      var m := |seen| - 1;
      SeenBefore(seen, conns);
      AllBefore(cfg, conns);
      AllReceived(v, device, cfg, seen[..m], conns[..m]);
      ReceivedOn(v, device, cfg, conns[m], seen[m], Got(v, seen[..m], conns[..m]), Flat(conns[..m]));
    }
  }

  ghost predicate SeenAll(seen: seq<string>, conns: seq<Conn>) {
    |seen| == |conns| && forall i :: 0 <= i < |seen| ==> seen[i] == conns[i].bytes
  }

  lemma GotOn<M>(v: View<M>, device: string, cfg: Settings, c: Conn)
    requires Understands(v, device, cfg) && ConnOk(cfg, c) && LogBraced(c.lines)
    ensures |MessagesOn(v, c.bytes)| == |Delivered(c.lines)|
  {
    MessagesOfTexts(v, device, cfg, c.lines);
  }

  /** Once everything has arrived, the messages counted are those of exactly the unspoilt lines. */
  lemma {:induction false} GotAll<M>(v: View<M>, device: string, cfg: Settings, seen: seq<string>, conns: seq<Conn>)
    requires Understands(v, device, cfg) && ConnsOk(cfg, conns) && LogBraced(Flat(conns)) && SeenAll(seen, conns)
    ensures Got(v, seen, conns) == Delivered(Flat(conns))
    decreases |seen|
  {
    if seen != [] {
      var m := |seen| - 1;
      AllBefore(cfg, conns);
      GotAll(v, device, cfg, seen[..m], conns[..m]);
      assert seen[m] == conns[m].bytes;
      GotOn(v, device, cfg, conns[m]);
      DeliveredAppend(Flat(conns[..m]), conns[m].lines);
      Whole(Delivered(conns[m].lines));
    }
  }

  lemma AllSeen(seen: seq<string>, conns: seq<Conn>)
    requires SeenAll(seen, conns)
    ensures SeenOf(seen, conns)
  {
    forall i | 0 <= i < |seen|
      ensures IsPrefix(seen[i], conns[i].bytes)
    {
      Whole(conns[i].bytes);
    }
  }

  /** Once everything has arrived: a sent line's row is counted exactly when the line is not spoilt,
      and so as many messages are counted as lines were sent exactly when none is. */
  lemma CountedExactly<M>(v: View<M>, device: string, cfg: Settings, net: Net, seen: seq<string>)
    requires Understands(v, device, cfg) && WireInv(cfg, net) && HeadInv(net) && SeenAll(seen, net.conns)
    ensures AllMessages(v, seen) == MessagesFor(v, Delivered(net.log)) && Got(v, seen, net.conns) == Delivered(net.log)
    ensures |AllMessages(v, seen)| == |net.log| <==> Clean(net.log)
    ensures forall k :: 0 <= k < |net.log| ==> (net.log[k] in Got(v, seen, net.conns) <==> net.log[k].before == "")
  {
    AllSeen(seen, net.conns);
    AllReceived(v, device, cfg, seen, net.conns);
    GotAll(v, device, cfg, seen, net.conns);
    DeliveredAll(net.log);
    forall k | 0 <= k < |net.log|
      ensures net.log[k] in Delivered(net.log) <==> net.log[k].before == ""
    {
      DeliveredMember(net.log, net.log[k]);
    }
  }

  /** The ids behind the messages rise strictly across all connections, and each message is that of
      the sample inserted under its id. */
  lemma ReceivedInOrder<M>(v: View<M>, device: string, cfg: Settings, p: Proto, seen: seq<string>)
    requires Understands(v, device, cfg) && TableInv(cfg, p) && WireInv(cfg, p.net) && HeadInv(p.net)
    requires SeenOf(seen, p.net.conns)
    ensures
      var got := Got(v, seen, p.net.conns);
      AllMessages(v, seen) == MessagesFor(v, got) && AscendingIds(got) && LogKnown(got, p.hist)
  {
    var got := Got(v, seen, p.net.conns);
    AllReceived(v, device, cfg, seen, p.net.conns);
    SubAscending(got, p.net.log);
    forall i | 0 <= i < |got|
      ensures got[i].id in p.hist && got[i].item == p.hist[got[i].id]
    {
      SubMember(got, p.net.log, got[i]);
    }
  }

  // ---------------------------------------------------------------------------------------
  // After a failed send in the drain
  // ---------------------------------------------------------------------------------------

  /** After a failed send the drain queries again on the same connection, if its SELECT succeeds. */
  lemma BreakToRead(cfg: Settings, p: Proto, a: Act, b: Act)
    requires p.net.pc.Send? && p.net.pc.drain && p.net.conns != [] && b != QueryFails
    ensures
      var read := Step(cfg, true, Step(cfg, true, Step(cfg, true, p, Break), a), b);
      read.net.pc == Read(true) && read.net.conns == p.net.conns
  {
    var broken := Step(cfg, true, p, Break);
    assert broken.net == p.net.(pc := Fail(p.net.pc.id, true), broke := true);
    var query := Step(cfg, true, broken, a);
    assert query.net == broken.net.(pc := Query(true));
  }

  lemma LeftBehind(before: string, line: string, k: nat)
    requires k <= |line|
    ensures before + line[..k] == "" <==> before == "" && k == 0
  {
    assert |before + line[..k]| == |before| + k;
  }

  lemma NextBefore(cfg: Settings, p: Proto, read: Proto, id: nat)
    requires Fits(cfg) && p.net.pc.Send? && p.net.conns != [] && TailOk(cfg, p.net) && HeadInv(p.net)
    requires read.net.pc == Read(true) && read.net.conns == p.net.conns && CanRead(cfg, read, id)
    ensures
      var next := ReadStep(cfg, read, NextRow(id)).net.pc;
      next.Send? && Braced(next.before) && next.before == p.net.pc.before + LineOf(cfg, p.net.pc.item)[..p.net.pc.k]
  {
    assert |LineOf(cfg, Seen(read.net.scan, read.db.rows, id).value.payload)| < 512;
  }

  /** So the next line, the same row's while its retries last, follows whatever was accepted of the
      broken one. Its row is marked once the line is out, but the receiver never counts it, exactly
      when something had been accepted. Here p is where the send failed and read where the drain
      goes on. */
  lemma LineAfterBreak<M>(v: View<M>, device: string, cfg: Settings, p: Proto, read: Proto, id: nat)
    requires Understands(v, device, cfg) && Fits(cfg)
    requires p.net.pc.Send? && p.net.conns != [] && TailOk(cfg, p.net) && HeadInv(p.net)
    requires read.net.pc == Read(true) && read.net.conns == p.net.conns && CanRead(cfg, read, id)
    ensures
      var next := ReadStep(cfg, read, NextRow(id)).net.pc;
      next.Send? && next.before == p.net.pc.before + LineOf(cfg, p.net.pc.item)[..p.net.pc.k] &&
      (MessageOf(v.reader, TextOf(cfg, Entry(id, next.item, next.before))) == [] <==>
        p.net.pc.k > 0 || p.net.pc.before != "")
  {
    NextBefore(cfg, p, read, id);
    var next := ReadStep(cfg, read, NextRow(id)).net.pc;
    LeftBehind(p.net.pc.before, LineOf(cfg, p.net.pc.item), p.net.pc.k);
    DecodeText(v, device, cfg, Entry(id, next.item, next.before));
  }
}
