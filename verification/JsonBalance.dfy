/** What every JSON text that begins with a brace has in common, whatever else it may contain (RFC
    8259): outside its texts the brackets close what they open, and once the first one is closed
    only white space follows. A reader of full JSON, such as the receiver's, accepts nothing else. */
module JsonBalance {
  import opened Samples
  import opened Json

  /** How far a text has been scanned: nothing but white space yet, inside depth brackets, all of
      them closed, or beyond repair. */
  datatype Scanner = Before | Inside(depth: nat, quoted: bool, escaped: bool) | Closed | Broken

  predicate JsonSpace(c: char) { c == ' ' || c == '\t' || c == '\n' || c == '\r' }

  predicate Opens(c: char) { c == '{' || c == '[' }

  predicate Closes(c: char) { c == '}' || c == ']' }

  function Feed(st: Scanner, c: char): Scanner {
    match st
    case Before => if Opens(c) then Inside(1, false, false) else if JsonSpace(c) then Before else Broken
    case Inside(d, true, escaped) =>
      if escaped then Inside(d, true, false)
      else if c == '\\' then Inside(d, true, true)
      else Inside(d, c != '"', false)
    case Inside(d, false, _) =>
      if c == '"' then Inside(d, true, false)
      else if Opens(c) then Inside(d + 1, false, false)
      else if Closes(c) then if d <= 1 then Closed else Inside(d - 1, false, false)
      else Inside(d, false, false)
    case Closed => if JsonSpace(c) then Closed else Broken
    case Broken => Broken
  }

  function Scan(st: Scanner, s: string): Scanner
    decreases |s|
  {
    if s == [] then st else Scan(Feed(st, s[0]), s[1..])
  }

  predicate Balanced(s: string) { Scan(Before, s) == Closed }

  lemma {:induction false} ScanAppend(st: Scanner, a: string, b: string)
    ensures Scan(st, a + b) == Scan(Scan(st, a), b)
    decreases |a|
  {
    if a == [] {
      assert a + b == b;
    } else {
      assert (a + b)[0] == a[0] && (a + b)[1..] == a[1..] + b;
      ScanAppend(Feed(st, a[0]), a[1..], b);
    }
  }

  // ---------------------------------------------------------------------------------------
  // The upload line is balanced
  // ---------------------------------------------------------------------------------------

  /** Characters that change nothing outside texts. */
  predicate Neutral(c: char) { c != '"' && !Opens(c) && !Closes(c) }

  lemma {:induction false} ScanNeutral(d: nat, s: string)
    requires forall c :: c in s ==> Neutral(c)
    ensures Scan(Inside(d, false, false), s) == Inside(d, false, false)
    decreases |s|
  {
    if s != [] {
      assert s[0] in s;
      ScanNeutral(d, s[1..]);
    }
  }

  lemma {:induction false} ScanPlain(d: nat, t: string)
    requires Plain(t)
    ensures Scan(Inside(d, true, false), t) == Inside(d, true, false)
    decreases |t|
  {
    if t != [] {
      assert t[0] in t;
      ScanPlain(d, t[1..]);
    }
  }

  /** A quoted plain text leaves everything as it was. */
  lemma ScanQuoted(d: nat, t: string)
    requires Plain(t)
    ensures Scan(Inside(d, false, false), "\"" + (t + "\"")) == Inside(d, false, false)
  {
    assert ("\"" + (t + "\""))[1..] == t + "\"";
    ScanPlain(d, t);
    ScanAppend(Inside(d, true, false), t, "\"");
    assert "\""[1..] == "";
  }

  predicate NoEscape(s: string) { '\\' !in s }

  predicate NumberChar(c: char) { IsDigit(c) || c == '-' || c == '.' }

  lemma {:induction false} DigitsOnly(n: nat)
    ensures forall c :: c in Digits(n) ==> NumberChar(c)
    decreases n
  {
    if n < 10 {
      DigitBack(n);
    } else {
      DigitBack(n % 10);
      DigitsOnly(n / 10);
    }
  }

  lemma UnsignedChars(a: nat, scale: nat)
    requires scale == 0 || scale == 2
    ensures forall c :: c in Unsigned(a, scale) ==> NumberChar(c)
  {
    DigitsOnly(a);
    DigitsOnly(a / 100);
    DigitBack(a / 10 % 10);
    DigitBack(a % 10);
  }

  lemma NumberChars(m: int, scale: nat)
    requires scale == 0 || scale == 2
    ensures forall c :: c in RenderValue(Number(m, scale)) ==> NumberChar(c)
  {
    UnsignedChars(Abs(m), scale);
  }

  /** A number has no brackets, quotes or escapes. */
  lemma NumberNeutral(s: string)
    requires forall c :: c in s ==> NumberChar(c)
    ensures (forall c :: c in s ==> Neutral(c)) && '"' !in s && NoEscape(s)
  {
  }

  lemma ScanValue(d: nat, v: Value)
    requires Printable(v)
    ensures Scan(Inside(d, false, false), RenderValue(v)) == Inside(d, false, false)
  {
    match v
    case Text(t) => ScanQuoted(d, t);
    case Number(m, scale) =>
      NumberChars(m, scale);
      NumberNeutral(RenderValue(v));
      ScanNeutral(d, RenderValue(v));
  }

  lemma ScanMember(d: nat, f: Field)
    requires Plain(f.key) && Printable(f.value)
    ensures Scan(Inside(d, false, false), RenderMember(f)) == Inside(d, false, false)
  {
    var v := RenderValue(f.value);
    assert RenderMember(f) == ("\"" + (f.key + "\"")) + (":" + v);
    ScanQuoted(d, f.key);
    ScanAppend(Inside(d, false, false), "\"" + (f.key + "\""), ":" + v);
    assert (":" + v)[1..] == v;
    ScanValue(d, f.value);
  }

  lemma {:induction false} ScanMembers(d: nat, fs: seq<Field>)
    requires fs != [] && forall f :: f in fs ==> Plain(f.key) && Printable(f.value)
    ensures Scan(Inside(d, false, false), RenderMembers(fs)) == Inside(d, false, false)
    decreases |fs|
  {
    ScanMember(d, fs[0]);
    if |fs| > 1 {
      var more := RenderMembers(fs[1..]);
      ScanAppend(Inside(d, false, false), RenderMember(fs[0]), "," + more);
      assert ("," + more)[1..] == more;
      ScanMembers(d, fs[1..]);
    }
  }

  lemma InnerScan(d: nat, device: string, s: Sample)
    requires Plain(device)
    ensures Scan(Inside(d, false, false), RenderMembers(Fields(device, s))) == Inside(d, false, false)
  {
    FieldsPrintable(device, s);
    ScanMembers(d, Fields(device, s));
  }

  lemma ScanBraced(st: Scanner, d: nat, inner: string)
    requires Feed(st, '{') == Inside(d, false, false)
    requires Scan(Inside(d, false, false), inner) == Inside(d, false, false)
    ensures Scan(st, "{" + (inner + "}")) == if d <= 1 then Closed else Inside(d - 1, false, false)
  {
    assert ("{" + (inner + "}"))[1..] == inner + "}";
    ScanAppend(Inside(d, false, false), inner, "}");
    ScanOne(Inside(d, false, false), '}');
  }

  /** From outside any text, a body opens one bracket and closes it again. */
  lemma ScanBody(st: Scanner, device: string, s: Sample)
    requires Plain(device) && (st == Before || (st.Inside? && !st.quoted && st.depth >= 1))
    ensures Scan(st, Body(device, s)) == if st == Before then Closed else Inside(st.depth, false, false)
  {
    var d := if st == Before then 1 else st.depth + 1;
    InnerScan(d, device, s);
    ScanBraced(st, d, RenderMembers(Fields(device, s)));
  }

  // ---------------------------------------------------------------------------------------
  // A body behind something else
  // ---------------------------------------------------------------------------------------

  function Quotes(s: string): nat
    decreases |s|
  {
    if s == [] then 0 else (if s[0] == '"' then 1 else 0) + Quotes(s[1..])
  }

  /** As long as brackets stay open, the quotes alone say whether a text is. */
  lemma {:induction false} ScanParity(d: nat, quoted: bool, s: string)
    requires NoEscape(s) && d >= 1
    ensures
      var st := Scan(Inside(d, quoted, false), s);
      st != Before && (st.Inside? ==> st.depth >= 1 && !st.escaped && st.quoted == (quoted != (Quotes(s) % 2 == 1)))
    decreases |s|
  {
    if s != [] {
      var st := Feed(Inside(d, quoted, false), s[0]);
      if st.Inside? {
        ScanParity(st.depth, st.quoted, s[1..]);
      } else {
        ScanClosed(s[1..]);
      }
    }
  }

  lemma {:induction false} ScanClosed(s: string)
    ensures Scan(Closed, s) == Closed || Scan(Closed, s) == Broken
    decreases |s|
  {
    if s != [] {
      if JsonSpace(s[0]) {
        ScanClosed(s[1..]);
      } else {
        ScanBroken(s[1..]);
      }
    }
  }

  lemma {:induction false} ScanBroken(s: string)
    ensures Scan(Broken, s) == Broken
    decreases |s|
  {
    if s != [] {
      ScanBroken(s[1..]);
    }
  }

  lemma {:induction false} QuotesAppend(a: string, b: string)
    ensures Quotes(a + b) == Quotes(a) + Quotes(b)
    decreases |a|
  {
    if a == [] {
      assert a + b == b;
    } else {
      assert (a + b)[1..] == a[1..] + b;
      QuotesAppend(a[1..], b);
    }
  }

  lemma {:induction false} NoQuotes(s: string)
    requires '"' !in s
    ensures Quotes(s) == 0
    decreases |s|
  {
    if s != [] {
      NoQuotes(s[1..]);
    }
  }

  lemma QuotedQuotes(t: string)
    requires Plain(t)
    ensures Quotes("\"" + (t + "\"")) == 2 && NoEscape("\"" + (t + "\""))
  {
    assert ("\"" + (t + "\""))[1..] == t + "\"";
    NoQuotes(t);
    QuotesAppend(t, "\"");
    assert "\""[1..] == "";
  }

  lemma ValueQuotes(v: Value)
    requires Printable(v)
    ensures Quotes(RenderValue(v)) % 2 == 0 && NoEscape(RenderValue(v))
  {
    match v
    case Text(t) => QuotedQuotes(t);
    case Number(m, scale) =>
      NumberChars(m, scale);
      NumberNeutral(RenderValue(v));
      NoQuotes(RenderValue(v));
  }

  lemma MemberQuotes(f: Field)
    requires Plain(f.key) && Printable(f.value)
    ensures Quotes(RenderMember(f)) % 2 == 0 && NoEscape(RenderMember(f))
  {
    var key, v := "\"" + (f.key + "\""), RenderValue(f.value);
    assert RenderMember(f) == key + (":" + v);
    QuotedQuotes(f.key);
    ValueQuotes(f.value);
    QuotesAppend(key, ":" + v);
    assert (":" + v)[1..] == v;
  }

  lemma {:induction false} MembersQuotes(fs: seq<Field>)
    requires fs != [] && forall f :: f in fs ==> Plain(f.key) && Printable(f.value)
    ensures Quotes(RenderMembers(fs)) % 2 == 0 && NoEscape(RenderMembers(fs))
    decreases |fs|
  {
    MemberQuotes(fs[0]);
    if |fs| > 1 {
      var more := RenderMembers(fs[1..]);
      MembersQuotes(fs[1..]);
      QuotesAppend(RenderMember(fs[0]), "," + more);
      assert ("," + more)[1..] == more;
    }
  }

  lemma InnerQuotes(device: string, s: Sample)
    requires Plain(device)
    ensures
      var inner := RenderMembers(Fields(device, s));
      Quotes(inner) % 2 == 0 && NoEscape(inner)
  {
    FieldsPrintable(device, s);
    MembersQuotes(Fields(device, s));
  }

  lemma ScanBracedQuoted(st: Scanner, inner: string)
    requires st.Inside? && st.quoted && st.depth >= 1 && Quotes(inner) % 2 == 0 && NoEscape(inner)
    ensures Scan(st, "{" + (inner + "}")) != Closed
  {
    var after := Feed(st, '{');
    assert ("{" + (inner + "}"))[1..] == inner + "}";
    ScanParity(st.depth, true, inner);
    ScanAppend(after, inner, "}");
    ScanOne(Scan(after, inner), '}');
  }

  /** From inside a text, the body's last brace is still inside one. */
  lemma ScanBodyQuoted(st: Scanner, device: string, s: Sample)
    requires Plain(device) && st.Inside? && st.quoted && st.depth >= 1
    ensures Scan(st, Body(device, s)) != Closed
  {
    InnerQuotes(device, s);
    ScanBracedQuoted(st, RenderMembers(Fields(device, s)));
  }

  lemma ScanOne(st: Scanner, c: char)
    ensures Scan(st, [c]) == Feed(st, c)
  {
    assert [c][1..] == [];
  }

  lemma {:induction false} ScanStarted(st: Scanner, p: string)
    requires st != Before && (st.Inside? ==> st.depth >= 1)
    ensures Scan(st, p) != Before && (Scan(st, p).Inside? ==> Scan(st, p).depth >= 1)
    decreases |p|
  {
    if p != [] {
      ScanStarted(Feed(st, p[0]), p[1..]);
    }
  }

  /** A body behind anything that starts with a brace is not balanced: the rest of another line,
      whether it ends inside a text, between members, or after its own last brace. */
  lemma GluedUnbalanced(p: string, device: string, s: Sample)
    requires Plain(device) && p != [] && p[0] == '{'
    ensures !Balanced(p + Body(device, s))
  {
    ScanStarted(Inside(1, false, false), p[1..]);
    var st := Scan(Before, p);
    var body := Body(device, s);
    ScanAppend(Before, p, body);
    if st.Inside? && !st.quoted {
      ScanBody(st, device, s);
    } else if st.Inside? {
      ScanBodyQuoted(st, device, s);
    } else {
      assert body[0] == '{' && Feed(st, body[0]) == Broken;
      ScanBroken(body[1..]);
    }
  }

  /** The line itself is. */
  lemma BodyBalanced(device: string, s: Sample)
    requires Plain(device)
    ensures Balanced(Body(device, s))
  {
    ScanBody(Before, device, s);
  }

  // ---------------------------------------------------------------------------------------
  // The reader of flat objects reads balanced lines only
  // ---------------------------------------------------------------------------------------

  lemma {:induction false} TextScanned(d: nat, s: string)
    requires ReadText(s).Some?
    ensures Scan(Inside(d, true, false), s) == Scan(Inside(d, false, false), ReadText(s).value.1)
    decreases |s|
  {
    if s[0] != '"' {
      TextScanned(d, s[1..]);
    }
  }

  lemma {:induction false} DigitsScanned(d: nat, acc: nat, s: string)
    ensures Scan(Inside(d, false, false), s) == Scan(Inside(d, false, false), ReadDigits(acc, s).1)
    decreases |s|
  {
    if s != [] && IsDigit(s[0]) {
      DigitsScanned(d, acc * 10 + DigitValue(s[0]), s[1..]);
    }
  }

  lemma UnsignedScanned(d: nat, s: string)
    requires ReadUnsigned(s).Some?
    ensures Scan(Inside(d, false, false), s) == Scan(Inside(d, false, false), ReadUnsigned(s).value.1)
  {
    DigitsScanned(d, DigitValue(s[0]), s[1..]);
    var (whole, rest) := ReadDigits(DigitValue(s[0]), s[1..]);
    if rest != [] && rest[0] == '.' {
      DigitsScanned(d, whole, rest[1..]);
    }
  }

  lemma ValueScanned(d: nat, s: string)
    requires ReadValue(s).Some?
    ensures Scan(Inside(d, false, false), s) == Scan(Inside(d, false, false), ReadValue(s).value.1)
  {
    if s != [] && s[0] == '"' {
      TextScanned(d, s[1..]);
    } else if s != [] && s[0] == '-' {
      UnsignedScanned(d, s[1..]);
    } else {
      UnsignedScanned(d, s);
    }
  }

  lemma MemberScanned(d: nat, s: string)
    requires ReadMember(s).Some?
    ensures Scan(Inside(d, false, false), s) == Scan(Inside(d, false, false), ReadMember(s).value.1)
  {
    TextScanned(d, s[1..]);
    ValueScanned(d, ReadText(s[1..]).value.1[1..]);
  }

  lemma {:induction false} MembersScanned(d: nat, s: string)
    requires ReadMembers(s).Some?
    ensures Scan(Inside(d, false, false), s) == Scan(Inside(d, false, false), ReadMembers(s).value.1)
    decreases |s|
  {
    MemberScanned(d, s);
    var rest := ReadMember(s).value.1;
    if rest != [] && rest[0] == ',' {
      MembersScanned(d, rest[1..]);
    }
  }

  /** A line it decodes is balanced. */
  lemma DecodeBalanced(line: string)
    requires Decode(line).Some?
    ensures Balanced(line)
  {
    MembersScanned(1, line[1..]);
    ScanOne(Inside(1, false, false), '}');
    assert "}" == ['}'];
  }

  /** So it never decodes a body glued to the broken-off start of another line. */
  lemma GluedRejected(p: string, device: string, s: Sample)
    requires Plain(device) && p != []
    ensures Decode(p + Body(device, s)).None?
  {
    var line := p + Body(device, s);
    assert line[0] == p[0];
    if Decode(line).Some? {
      DecodeBalanced(line);
      GluedUnbalanced(p, device, s);
      assert false;
    }
  }
}
