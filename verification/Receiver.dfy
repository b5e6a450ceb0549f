/** The TCP receiver's framing loop (scripts/run_receiver.py): bytes arrive in chunks of any size,
    lines end in a newline, and a line counts when it decodes, whatever the reader is. */
module Receiver {
  import opened Options
  import opened Json
  import opened Samples
  import opened Sequences

  // ---------------------------------------------------------------------------------------
  // Splitting a stream into lines
  // ---------------------------------------------------------------------------------------

  function NewlineAt(s: string): (k: nat)
    requires '\n' in s
    ensures k < |s| && s[k] == '\n' && forall i :: 0 <= i < k ==> s[i] != '\n'
    decreases |s|
  {
    if s[0] == '\n' then 0 else 1 + NewlineAt(s[1..])
  }

  /** The complete lines of a stream, without their newlines. */
  function Lines(s: string): seq<string>
    decreases |s|
  {
    if '\n' !in s then [] else [s[..NewlineAt(s)]] + Lines(s[NewlineAt(s) + 1..])
  }

  /** What follows the last newline. */
  function Rest(s: string): string
    decreases |s|
  {
    if '\n' !in s then s else Rest(s[NewlineAt(s) + 1..])
  }

  lemma {:induction false} RestOneLine(s: string)
    ensures OneLine(Rest(s))
    decreases |s|
  {
    if '\n' in s {
      RestOneLine(s[NewlineAt(s) + 1..]);
    }
  }

  /** Lines, each ended by a newline, and what follows them. */
  function Unsplit(lines: seq<string>, rest: string): string
    decreases |lines|
  {
    if lines == [] then rest else lines[0] + ("\n" + Unsplit(lines[1..], rest))
  }

  lemma UnsplitMore(line: string, lines: seq<string>, rest: string)
    ensures Unsplit([line] + lines, rest) == line + ("\n" + Unsplit(lines, rest))
  {
    assert ([line] + lines)[1..] == lines;
  }

  lemma RestSplit(s: string, k: nat)
    requires k < |s| && s[k] == '\n'
    ensures s == s[..k] + ("\n" + s[k + 1..])
  {
  }

  /** The first newline is at k. */
  predicate FirstNewline(s: string, k: nat) {
    k < |s| && s[k] == '\n' && forall i :: 0 <= i < k ==> s[i] != '\n'
  }

  lemma FirstLine(s: string, k: nat)
    requires FirstNewline(s, k)
    ensures Lines(s) == [s[..k]] + Lines(s[k + 1..]) && Rest(s) == Rest(s[k + 1..])
  {
    assert NewlineAt(s) == k;
  }

  predicate AllOneLine(lines: seq<string>) {
    forall i :: 0 <= i < |lines| ==> OneLine(lines[i])
  }

  /** The lines and the rest make up the stream, and no newline is left in any of them: so the lines
      are exactly the text between the newlines. */
  lemma {:induction false} LinesExactly(s: string)
    ensures Unsplit(Lines(s), Rest(s)) == s && AllOneLine(Lines(s)) && OneLine(Rest(s))
    decreases |s|
  {
    if '\n' in s {
      var k := NewlineAt(s);
      LinesExactly(s[k + 1..]);
      FirstLine(s, k);
      UnsplitMore(s[..k], Lines(s[k + 1..]), Rest(s[k + 1..]));
      RestSplit(s, k);
      OneLineBefore(s, k);
    }
  }

  lemma OneLineBefore(s: string, k: nat)
    requires FirstNewline(s, k)
    ensures OneLine(s[..k])
  {
  }

  lemma FirstNewlineStays(a: string, b: string, k: nat)
    requires FirstNewline(a, k)
    ensures FirstNewline(a + b, k) && (a + b)[..k] == a[..k] && (a + b)[k + 1..] == a[k + 1..] + b
  {
  }

  /** A stream can be split at any point and resumed from what was left over. */
  lemma {:induction false} LinesAppend(a: string, b: string)
    ensures Lines(a + b) == Lines(a) + Lines(Rest(a) + b)
    ensures Rest(a + b) == Rest(Rest(a) + b)
    decreases |a|
  {
    if '\n' in a {
      var k := NewlineAt(a);
      FirstLine(a, k);
      FirstNewlineStays(a, b, k);
      FirstLine(a + b, k);
      LinesAppend(a[k + 1..], b);
      Associative([a[..k]], Lines(a[k + 1..]), Lines(Rest(a) + b));
    }
  }

  lemma OneCompleteLine(s: string)
    requires OneLine(s)
    ensures Lines(s + "\n") == [s] && Rest(s + "\n") == ""
  {
    var k := |s|;
    assert FirstNewline(s + "\n", k);
    FirstLine(s + "\n", k);
    assert (s + "\n")[..k] == s && (s + "\n")[k + 1..] == "";
  }

  /** Text without a newline only lengthens the line in progress; a newline completes it. */
  lemma LinesExtend(a: string, b: string)
    requires OneLine(b)
    ensures Lines(a + b) == Lines(a) && Rest(a + b) == Rest(a) + b
    ensures Lines(a + (b + "\n")) == Lines(a) + [Rest(a) + b] && Rest(a + (b + "\n")) == ""
  {
    RestOneLine(a);
    LinesAppend(a, b);
    LinesAppend(a, b + "\n");
    assert Rest(a) + (b + "\n") == (Rest(a) + b) + "\n";
    OneCompleteLine(Rest(a) + b);
  }

  predicate IsPrefix<T(==)>(a: seq<T>, b: seq<T>) { |a| <= |b| && b[..|a|] == a }

  /** Whoever has seen less of a stream has seen a prefix of its lines. */
  lemma LinesOfPrefix(seen: string, s: string)
    requires IsPrefix(seen, s)
    ensures IsPrefix(Lines(seen), Lines(s))
  {
    assert s == seen + s[|seen|..];
    LinesAppend(seen, s[|seen|..]);
  }

  // ---------------------------------------------------------------------------------------
  // Counting messages
  // ---------------------------------------------------------------------------------------

  predicate IsSpace(c: char) { c == ' ' || '\t' <= c <= '\r' }

  predicate Blank(line: string) { forall c :: c in line ==> IsSpace(c) }

  /** What the receiver does with a line that is not blank: decoding it, whether the message counts as
      an alarm, and whether the line for it can be printed; without that it raises an error that
      nothing catches. A message that is no object is one that it can neither count as an alarm nor
      print. */
  datatype Reader<!M> = Reader(decode: string -> Option<M>, alarming: M -> bool, printed: M -> bool)

  /** The messages the receiver counts, in order. */
  function MessagesBy<M>(r: Reader<M>, lines: seq<string>): seq<M>
    decreases |lines|
  {
    if lines == [] then [] else MessagesBy(r, lines[..|lines| - 1]) + MessageOf(r, lines[|lines| - 1])
  }

  /** The message on a line, if any. */
  function MessageOf<M>(r: Reader<M>, line: string): seq<M> {
    if Blank(line) || r.decode(line).None? then [] else [r.decode(line).value]
  }

  predicate AllPrinted<M>(r: Reader<M>, ms: seq<M>) {
    forall i :: 0 <= i < |ms| ==> r.printed(ms[i])
  }

  /** What is counted of all messages: each of them, or, if it dies, the ones up to and including
      the first it cannot print. */
  ghost predicate Counted<M>(r: Reader<M>, counted: seq<M>, all: seq<M>, died: bool) {
    if died then
      counted != [] && IsPrefix(counted, all) &&
      !r.printed(counted[|counted| - 1]) && AllPrinted(r, counted[..|counted| - 1])
    else counted == all && AllPrinted(r, all)
  }

  /** The same of a stream seen so far. */
  ghost predicate CountedOn<M>(r: Reader<M>, counted: seq<M>, stream: string, died: bool) {
    Counted(r, counted, MessagesBy(r, Lines(stream)), died)
  }

  function CountAlarms<M>(r: Reader<M>, ms: seq<M>): nat
    decreases |ms|
  {
    if ms == [] then 0
    else CountAlarms(r, ms[..|ms| - 1]) + if r.alarming(ms[|ms| - 1]) then 1 else 0
  }

  lemma MessagesSnoc<M>(r: Reader<M>, lines: seq<string>, line: string)
    ensures MessagesBy(r, lines + [line]) == MessagesBy(r, lines) + MessageOf(r, line)
  {
    assert (lines + [line])[..|lines|] == lines;
  }

  lemma {:induction false} MessagesAppend<M>(r: Reader<M>, a: seq<string>, b: seq<string>)
    ensures MessagesBy(r, a + b) == MessagesBy(r, a) + MessagesBy(r, b)
    decreases |b|
  {
    if b == [] {
      assert a + b == a;
    } else {
      var c := b[..|b| - 1];
      assert (a + b)[..|a + b| - 1] == a + c;
      MessagesAppend(r, a, c);
      Associative(MessagesBy(r, a), MessagesBy(r, c), MessageOf(r, b[|b| - 1]));
    }
  }

  /** The lines that count: those with a character that is no white space and a message on them. */
  ghost predicate Counts<M>(r: Reader<M>, line: string) {
    (exists i :: 0 <= i < |line| && line[i] != ' ' && !('\t' <= line[i] <= '\r')) && r.decode(line).Some?
  }

  /** at lists, in order, the positions of the lines that count, and these are their messages. */
  ghost predicate MessagesAt<M>(r: Reader<M>, lines: seq<string>, at: seq<nat>, ms: seq<M>) {
    |at| == |ms| && (forall i, j :: 0 <= i < j < |at| ==> at[i] < at[j]) &&
    (forall i :: 0 <= i < |at| ==> at[i] < |lines| && r.decode(lines[at[i]]) == Some(ms[i])) &&
    (forall k :: 0 <= k < |lines| ==> (Counts(r, lines[k]) <==> k in at))
  }

  lemma CountsExactly<M>(r: Reader<M>, line: string)
    ensures Counts(r, line) <==> MessageOf(r, line) != []
    ensures Counts(r, line) ==> MessageOf(r, line) == [r.decode(line).value]
  {
    if !Blank(line) {
      var c :| c in line && !IsSpace(c);
      var i :| 0 <= i < |line| && line[i] == c;
      assert line[i] != ' ' && !('\t' <= line[i] <= '\r');
    } else {
      assert forall i :: 0 <= i < |line| ==> line[i] in line;
    }
  }

  lemma OneMoreAt<M>(r: Reader<M>, lines: seq<string>, line: string, at: seq<nat>, ms: seq<M>)
    requires MessagesAt(r, lines, at, ms)
    ensures Counts(r, line) ==> MessagesAt(r, lines + [line], at + [|lines|], ms + [r.decode(line).value])
    ensures !Counts(r, line) ==> MessagesAt(r, lines + [line], at, ms)
  {
    assert forall k :: 0 <= k < |lines| ==> (lines + [line])[k] == lines[k];
    assert forall i :: 0 <= i < |at| ==> at[i] in at;
  }

  /** The messages are those of the lines that count, one each, in their order. */
  lemma {:induction false} MessagesExactly<M>(r: Reader<M>, lines: seq<string>) returns (at: seq<nat>)
    ensures MessagesAt(r, lines, at, MessagesBy(r, lines))
    decreases |lines|
  {
    if lines == [] {
      at := [];
    } else {
      var init, line := lines[..|lines| - 1], lines[|lines| - 1];
      at := MessagesExactly(r, init);
      OneMoreAt(r, init, line, at, MessagesBy(r, init));
      CountsExactly(r, line);
      LastApart(lines);
      if Counts(r, line) {
        at := at + [|init|];
      }
    }
  }

  lemma MessagesOfPrefix<M>(r: Reader<M>, seen: string, s: string)
    requires IsPrefix(seen, s)
    ensures IsPrefix(MessagesBy(r, Lines(seen)), MessagesBy(r, Lines(s)))
  {
    LinesOfPrefix(seen, s);
    var a, b := Lines(seen), Lines(s);
    assert b == a + b[|a|..];
    MessagesAppend(r, a, b[|a|..]);
  }

  function Concat(chunks: seq<string>): string
    decreases |chunks|
  {
    if chunks == [] then "" else Concat(chunks[..|chunks| - 1]) + chunks[|chunks| - 1]
  }

  /** A stream is its chunks one after the other. */
  lemma {:induction false} ConcatAppend(a: seq<string>, b: seq<string>, chunk: string)
    ensures Concat(a + b) == Concat(a) + Concat(b) && Concat([chunk]) == chunk
    decreases |b|
  {
    assert [chunk][..0] == [];
    if b == [] {
      assert a + b == a;
    } else {
      assert (a + b)[..|a + b| - 1] == a + b[..|b| - 1];
      ConcatAppend(a, b[..|b| - 1], chunk);
    }
  }

  lemma {:induction false} AlarmsAppend<M>(r: Reader<M>, a: seq<M>, b: seq<M>)
    ensures CountAlarms(r, a + b) == CountAlarms(r, a) + CountAlarms(r, b)
    decreases |b|
  {
    if b == [] {
      assert a + b == a;
    } else {
      assert (a + b)[..|a + b| - 1] == a + b[..|b| - 1];
      AlarmsAppend(r, a, b[..|b| - 1]);
    }
  }

  lemma CountedSnoc<M>(r: Reader<M>, before: seq<M>, m: M)
    requires AllPrinted(r, before)
    ensures if r.printed(m) then AllPrinted(r, before + [m]) else Counted(r, before + [m], before + [m], true)
  {
    assert (before + [m])[..|before|] == before;
  }

  /** Messages seen after a death make no difference. */
  lemma DiedEarlier<M>(r: Reader<M>, counted: seq<M>, seen: seq<M>, more: seq<M>)
    requires Counted(r, counted, seen, true)
    ensures Counted(r, counted, seen + more, true)
  {
    assert (seen + more)[..|counted|] == seen[..|counted|];
  }

  /** ... and messages seen before it only come first. */
  lemma DiedLater<M>(r: Reader<M>, before: seq<M>, counted: seq<M>, all: seq<M>)
    requires AllPrinted(r, before) && Counted(r, counted, all, true)
    ensures Counted(r, before + counted, before + all, true)
  {
    assert (before + all)[..|before + counted|] == before + all[..|counted|];
    assert (before + counted)[..|before + counted| - 1] == before + counted[..|counted| - 1];
  }

  lemma CountOne<M>(r: Reader<M>, m: M)
    ensures CountAlarms(r, [m]) == if r.alarming(m) then 1 else 0
  {
    assert [m][..0] == [];
  }

  /** What the loop keeps of the lines it has taken, as long as it lives. */
  ghost predicate Tally<M>(r: Reader<M>, lines: seq<string>, counted: seq<M>, count: nat, alarms: nat) {
    counted == MessagesBy(r, lines) && AllPrinted(r, counted) && count == |counted| && alarms == CountAlarms(r, counted)
  }

  /** A line with no message on it. */
  lemma Skipped<M>(r: Reader<M>, lines: seq<string>, line: string, counted: seq<M>, count: nat, alarms: nat)
    requires Tally(r, lines, counted, count, alarms) && MessageOf(r, line) == []
    ensures Tally(r, lines + [line], counted, count, alarms)
  {
    MessagesSnoc(r, lines, line);
  }

  /** One with a message; if it cannot be printed, nothing after it counts. */
  lemma Tallied<M>(r: Reader<M>, lines: seq<string>, line: string, m: M, counted: seq<M>, count: nat, alarms: nat)
    requires Tally(r, lines, counted, count, alarms) && MessageOf(r, line) == [m]
    ensures MessagesBy(r, lines + [line]) == counted + [m]
    ensures CountAlarms(r, counted + [m]) == alarms + if r.alarming(m) then 1 else 0
    ensures
      if r.printed(m) then AllPrinted(r, counted + [m]) else Counted(r, counted + [m], counted + [m], true)
  {
    MessagesSnoc(r, lines, line);
    CountOne(r, m);
    AlarmsAppend(r, counted, [m]);
    CountedSnoc(r, counted, m);
  }

  /** What is counted on the first lines of a stream, of which the last one kills it. */
  lemma DiesOn<M>(r: Reader<M>, counted: seq<M>, lines: seq<string>, rest: seq<string>, stream: string)
    requires counted == MessagesBy(r, lines) && Counted(r, counted, counted, true) && lines + rest == Lines(stream)
    ensures CountedOn(r, counted, stream, true)
  {
    MessagesAppend(r, lines, rest);
    DiedEarlier(r, counted, counted, MessagesBy(r, rest));
  }

  lemma NoLineLeft<M>(r: Reader<M>, lines: seq<string>, buf: string, stream: string, counted: seq<M>,
                      count: nat, alarms: nat)
    requires '\n' !in buf && lines + Lines(buf) == Lines(stream) && Tally(r, lines, counted, count, alarms)
    ensures CountedOn(r, counted, stream, false) && Rest(buf) == buf
  {
    assert lines + Lines(buf) == lines;
  }

  lemma OneLineTaken(lines: seq<string>, buf: string, k: nat, stream: string)
    requires FirstNewline(buf, k) && lines + Lines(buf) == Lines(stream)
    ensures (lines + [buf[..k]]) + Lines(buf[k + 1..]) == Lines(stream) && Rest(buf[k + 1..]) == Rest(buf)
  {
    FirstLine(buf, k);
    Associative(lines, [buf[..k]], Lines(buf[k + 1..]));
  }

  /** The inner loop, whatever the reader: it takes every complete line off the buffer, unless it
      dies on one. */
  method TakeLines<M>(r: Reader<M>, stream: string)
    returns (counted: seq<M>, count: nat, alarms: nat, buf: string, died: bool)
    ensures CountedOn(r, counted, stream, died) && (!died ==> buf == Rest(stream))
    ensures count == |counted| && alarms == CountAlarms(r, counted)
  {
    counted, count, alarms, buf, died := [], 0, 0, stream, false;
    ghost var lines: seq<string> := [];
    while '\n' in buf
      invariant !died && lines + Lines(buf) == Lines(stream) && Rest(buf) == Rest(stream)
      invariant Tally(r, lines, counted, count, alarms)
      decreases |buf|
    {
      var k := NewlineAt(buf);
      var line := buf[..k];
      OneLineTaken(lines, buf, k, stream);
      buf := buf[k + 1..];
      if Blank(line) || r.decode(line).None? {
        Skipped(r, lines, line, counted, count, alarms);
        lines := lines + [line];
        continue;
      }
      var msg := r.decode(line).value;
      Tallied(r, lines, line, msg, counted, count, alarms);
      lines := lines + [line];
      count := count + 1;
      if r.alarming(msg) {
        alarms := alarms + 1;
      }
      counted := counted + [msg];
      if !r.printed(msg) {
        DiesOn(r, counted, lines, Lines(buf), stream);
        died := true;
        return;
      }
    }
    NoLineLeft(r, lines, buf, stream, counted, count, alarms);
  }

  /** One more chunk: what was left over and the chunk give the messages that follow. */
  lemma CountedChunk<M>(r: Reader<M>, a: string, c: string, counted: seq<M>, msgs: seq<M>, died: bool)
    requires CountedOn(r, counted, a, false) && CountedOn(r, msgs, Rest(a) + c, died)
    ensures CountedOn(r, counted + msgs, a + c, died)
  {
    LinesAppend(a, c);
    MessagesAppend(r, Lines(a), Lines(Rest(a) + c));
    if died {
      DiedLater(r, counted, msgs, MessagesBy(r, Lines(Rest(a) + c)));
    }
  }

  lemma NextChunk<M>(r: Reader<M>, chunks: seq<string>, i: nat, counted: seq<M>, msgs: seq<M>, died: bool)
    requires i < |chunks| && CountedOn(r, counted, Concat(chunks[..i]), false)
    requires CountedOn(r, msgs, Rest(Concat(chunks[..i])) + chunks[i], died)
    ensures CountedOn(r, counted + msgs, Concat(chunks[..i + 1]), died)
    ensures Rest(Concat(chunks[..i + 1])) == Rest(Rest(Concat(chunks[..i])) + chunks[i])
  {
    assert chunks[..i + 1][..i] == chunks[..i];
    LinesAppend(Concat(chunks[..i]), chunks[i]);
    CountedChunk(r, Concat(chunks[..i]), chunks[i], counted, msgs, died);
  }

  lemma {:induction false} ConcatPrefix(chunks: seq<string>, n: nat)
    requires n <= |chunks|
    ensures IsPrefix(Concat(chunks[..n]), Concat(chunks))
    decreases |chunks|
  {
    if n == |chunks| {
      assert chunks[..n] == chunks;
    } else {
      var init := chunks[..|chunks| - 1];
      ConcatPrefix(init, n);
      assert init[..n] == chunks[..n];
    }
  }

  lemma DiedInPrefix<M>(r: Reader<M>, counted: seq<M>, seen: string, stream: string)
    requires CountedOn(r, counted, seen, true) && IsPrefix(seen, stream)
    ensures CountedOn(r, counted, stream, true)
  {
    MessagesOfPrefix(r, seen, stream);
    var a, b := MessagesBy(r, Lines(seen)), MessagesBy(r, Lines(stream));
    assert b == a + b[|a|..];
    DiedEarlier(r, counted, a, b[|a|..]);
  }

  /** One connection of the receiver, whatever the reader and the chunking: it counts the messages on
      the lines of the whole stream, and keeps the unfinished line in its buffer, unless it dies on
      one. */
  method Session<M>(r: Reader<M>, chunks: seq<string>)
    returns (counted: seq<M>, count: nat, alarms: nat, buf: string, died: bool)
    ensures CountedOn(r, counted, Concat(chunks), died)
    ensures !died ==> buf == Rest(Concat(chunks))
    ensures count == |counted| && alarms == CountAlarms(r, counted)
  {
    counted, count, alarms, buf, died := [], 0, 0, "", false;
    var i := 0;
    while i < |chunks| && !died
      invariant 0 <= i <= |chunks|
      invariant CountedOn(r, counted, Concat(chunks[..i]), died)
      invariant !died ==> buf == Rest(Concat(chunks[..i]))
      invariant count == |counted| && alarms == CountAlarms(r, counted)
    {
      var msgs, n, a, rest, dead := TakeLines(r, buf + chunks[i]);
      AlarmsAppend(r, counted, msgs);
      NextChunk(r, chunks, i, counted, msgs, dead);
      counted, count, alarms, buf, died := counted + msgs, count + n, alarms + a, rest, dead;
      i := i + 1;
    }
    if died {
      ConcatPrefix(chunks, i);
      DiedInPrefix(r, counted, Concat(chunks[..i]), Concat(chunks));
    } else {
      assert chunks[..i] == chunks;
    }
  }

  // ---------------------------------------------------------------------------------------
  // The reader of flat objects
  // ---------------------------------------------------------------------------------------

  type Message = seq<Field>

  /** A key's value in a decoded object; the last one counts. */
  function Lookup(m: Message, key: string): Option<Value>
    decreases |m|
  {
    if m == [] then None
    else if m[|m| - 1].key == key then Some(m[|m| - 1].value)
    else Lookup(m[..|m| - 1], key)
  }

  /** msg.get('alarm_status', 0) != 0, which any text is. */
  predicate Alarming(m: Message) {
    match Lookup(m, "alarm_status")
    case None => false
    case Some(Text(_)) => true
    case Some(Number(mantissa, _)) => mantissa != 0
  }

  predicate HasNumber(m: Message, key: string) {
    Lookup(m, key).Some? && Lookup(m, key).value.Number?
  }

  /** The line printed for a message needs these keys, the first three as numbers. */
  predicate Printed(m: Message) {
    HasNumber(m, "ph") && HasNumber(m, "temperature") && HasNumber(m, "turbidity") &&
    Lookup(m, "device_id").Some? && Lookup(m, "conductivity").Some? && Lookup(m, "alarm_status").Some? &&
    Lookup(m, "sequence").Some?
  }

  function FlatReader(): Reader<Message> {
    Reader((line: string) => Decode(line), (m: Message) => Alarming(m), (m: Message) => Printed(m))
  }

  // ---------------------------------------------------------------------------------------
  // The uploader's messages
  // ---------------------------------------------------------------------------------------

  lemma {:induction false} LookupAt(m: Message, i: nat, key: string)
    requires i < |m| && m[i].key == key && forall j :: i < j < |m| ==> m[j].key != key
    ensures Lookup(m, key) == Some(m[i].value)
    decreases |m|
  {
    if i < |m| - 1 {
      LookupAt(m[..|m| - 1], i, key);
    }
  }

  /** Which value stands under which key: hundredths for pH, temperature and turbidity, whole numbers
      for the rest. */
  predicate CarriesMeasurements(m: Message, s: Sample) {
    Lookup(m, "ph") == Some(Number(s.ph, 2)) && Lookup(m, "temperature") == Some(Number(s.temperature, 2)) &&
    Lookup(m, "turbidity") == Some(Number(s.turbidity, 2)) &&
    Lookup(m, "conductivity") == Some(Number(s.conductivity, 0))
  }

  predicate CarriesStatus(m: Message, device: string, s: Sample) {
    Lookup(m, "device_id") == Some(Text(device)) && Lookup(m, "timestamp_ms") == Some(Number(s.timestampMs, 0)) &&
    Lookup(m, "sensor_status") == Some(Number(s.sensorStatus as int, 0)) &&
    Lookup(m, "alarm_status") == Some(Number(s.alarmStatus as int, 0)) &&
    Lookup(m, "sequence") == Some(Number(s.sequence as int, 0))
  }

  lemma MeasurementsThere(device: string, s: Sample)
    ensures CarriesMeasurements(Fields(device, s), s)
  {
    var m := Fields(device, s);
    LookupAt(m, 2, "ph");
    LookupAt(m, 3, "temperature");
    LookupAt(m, 4, "turbidity");
    LookupAt(m, 5, "conductivity");
  }

  lemma StatusThere(device: string, s: Sample)
    ensures CarriesStatus(Fields(device, s), device, s)
  {
    var m := Fields(device, s);
    LookupAt(m, 0, "device_id");
    LookupAt(m, 1, "timestamp_ms");
    LookupAt(m, 6, "sensor_status");
    LookupAt(m, 7, "alarm_status");
    LookupAt(m, 8, "sequence");
  }

  /** What a reader finds on the line of a sample, key by key. */
  lemma LineCarries(device: string, s: Sample)
    requires Plain(device)
    ensures
      Decode(Body(device, s)).Some? &&
      var m := Decode(Body(device, s)).value;
      CarriesMeasurements(m, s) && CarriesStatus(m, device, s)
  {
    JsonRoundTrip(device, s);
    MeasurementsThere(device, s);
    StatusThere(device, s);
  }

  /** The receiver can print every message the uploader renders, and counts an alarm on it exactly
      when an alarm bit is set. */
  lemma UploadedPrinted(device: string, s: Sample)
    ensures Printed(Fields(device, s)) && (Alarming(Fields(device, s)) <==> s.alarmStatus != 0)
  {
    MeasurementsThere(device, s);
    StatusThere(device, s);
  }
}
