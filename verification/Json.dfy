/** The upload line: how the uploader renders a sample (uploader_build_json in
    app/src/uploader.c) and a JSON reader for flat objects such as the receiver uses on it. */
module Json {
  import opened Options
  import opened Samples

  /** A number is its digits without the point, and how many of them stand after it. */
  datatype Value = Text(text: string) | Number(mantissa: int, scale: nat)

  datatype Field = Field(key: string, value: Value)

  // ---------------------------------------------------------------------------------------
  // Rendering
  // ---------------------------------------------------------------------------------------

  function Digit(d: nat): char
    requires d < 10
  {
    '0' + d as char
  }

  function Digits(n: nat): (s: string)
    ensures s != []
    decreases n
  {
    if n < 10 then [Digit(n)] else Digits(n / 10) + [Digit(n % 10)]
  }

  function Abs(n: int): nat { if n < 0 then -n else n }

  function Sign(n: int): string { if n < 0 then "-" else "" }

  /** %d, %u and %lld */
  function Decimal(n: int): string { Sign(n) + Unsigned(Abs(n), 0) }

  /** %.2f of a number of hundredths */
  function TwoPlaces(n: int): string { Sign(n) + Unsigned(Abs(n), 2) }

  /** The number without its sign, with no or with two decimal places. */
  function Unsigned(a: nat, scale: nat): string {
    if scale == 0 then Digits(a) else Digits(a / 100) + ("." + Places(a))
  }

  function Places(a: nat): string { [Digit(a / 10 % 10), Digit(a % 10)] }

  /** The formats in use: quoted text, integers, and two decimal places. */
  predicate Printable(v: Value) {
    match v
    case Text(t) => Plain(t)
    case Number(_, scale) => scale == 0 || scale == 2
  }

  /** Text that %s copies between quotes without breaking them. */
  predicate Plain(t: string) {
    forall c :: c in t ==> PlainChar(c)
  }

  /** A printable ASCII character that JSON does not escape: one byte, and itself in the line. */
  predicate PlainChar(c: char) { ' ' <= c <= '~' && c != '"' && c != '\\' }

  function RenderValue(v: Value): string {
    match v
    case Text(t) => "\"" + (t + "\"")
    case Number(m, scale) => if scale == 0 then Decimal(m) else TwoPlaces(m)
  }

  function RenderMember(f: Field): string {
    "\"" + (f.key + ("\"" + (":" + RenderValue(f.value))))
  }

  function RenderMembers(fs: seq<Field>): string
    requires fs != []
    decreases |fs|
  {
    if |fs| == 1 then RenderMember(fs[0])
    else RenderMember(fs[0]) + ("," + RenderMembers(fs[1..]))
  }

  function Fields(device: string, s: Sample): seq<Field> {
    [Field("device_id", Text(device)),
     Field("timestamp_ms", Number(s.timestampMs, 0)),
     Field("ph", Number(s.ph, 2)),
     Field("temperature", Number(s.temperature, 2)),
     Field("turbidity", Number(s.turbidity, 2)),
     Field("conductivity", Number(s.conductivity, 0)),
     Field("sensor_status", Number(s.sensorStatus as int, 0)),
     Field("alarm_status", Number(s.alarmStatus as int, 0)),
     Field("sequence", Number(s.sequence as int, 0))]
  }

  /** The line without its newline. */
  function Body(device: string, s: Sample): string {
    "{" + (RenderMembers(Fields(device, s)) + "}")
  }

  function BuildJson(device: string, s: Sample): string {
    Body(device, s) + "\n"
  }

  // ---------------------------------------------------------------------------------------
  // Reading
  // ---------------------------------------------------------------------------------------

  predicate IsDigit(c: char) { '0' <= c <= '9' }

  function DigitValue(c: char): nat
    requires IsDigit(c)
  {
    (c - '0') as int
  }

  /** Reads digits onto an accumulated value, and leaves the rest. */
  function ReadDigits(acc: nat, s: string): (r: (nat, string))
    ensures |r.1| <= |s|
    decreases |s|
  {
    if s != [] && IsDigit(s[0]) then ReadDigits(acc * 10 + DigitValue(s[0]), s[1..]) else (acc, s)
  }

  /** An unsigned number: no superfluous leading zero, digits on both sides of a point. */
  function ReadUnsigned(s: string): (r: Option<(Value, string)>)
    ensures r.Some? ==> |r.value.1| < |s|
  {
    if s == [] || !IsDigit(s[0]) then None
    else if s[0] == '0' && |s| > 1 && IsDigit(s[1]) then None
    else
      var (whole, rest) := ReadDigits(DigitValue(s[0]), s[1..]);
      if rest != [] && rest[0] == '.' then
        var (all, after) := ReadDigits(whole, rest[1..]);
        if |after| == |rest| - 1 then None
        else Some((Number(all, |rest| - 1 - |after|), after))
      else Some((Number(whole, 0), rest))
  }

  function ReadNumber(s: string): (r: Option<(Value, string)>)
    ensures r.Some? ==> |r.value.1| < |s|
  {
    if s != [] && s[0] == '-' then
      match ReadUnsigned(s[1..])
      case Some((Number(m, scale), rest)) => Some((Number(-m, scale), rest))
      case _ => None
    else ReadUnsigned(s)
  }

  /** The text up to the closing quote; escapes and control characters are not accepted. */
  function ReadText(s: string): (r: Option<(string, string)>)
    ensures r.Some? ==> |r.value.1| < |s|
    decreases |s|
  {
    if s == [] then None
    else if s[0] == '"' then Some(("", s[1..]))
    else if !PlainChar(s[0]) then None
    else
      match ReadText(s[1..])
      case None => None
      case Some((t, rest)) => Some(([s[0]] + t, rest))
  }

  function ReadValue(s: string): (r: Option<(Value, string)>)
    ensures r.Some? ==> |r.value.1| < |s|
  {
    if s != [] && s[0] == '"' then
      match ReadText(s[1..])
      case None => None
      case Some((t, rest)) => Some((Text(t), rest))
    else ReadNumber(s)
  }

  function ReadMember(s: string): (r: Option<(Field, string)>)
    ensures r.Some? ==> |r.value.1| < |s|
  {
    if s == [] || s[0] != '"' then None
    else
      match ReadText(s[1..])
      case None => None
      case Some((key, rest)) =>
        if rest == [] || rest[0] != ':' then None
        else
          match ReadValue(rest[1..])
          case None => None
          case Some((v, after)) => Some((Field(key, v), after))
  }

  function ReadMembers(s: string): (r: Option<(seq<Field>, string)>)
    decreases |s|
  {
    match ReadMember(s)
    case None => None
    case Some((f, rest)) =>
      if rest != [] && rest[0] == ',' then
        match ReadMembers(rest[1..])
        case None => None
        case Some((fs, after)) => Some(([f] + fs, after))
      else Some(([f], rest))
  }

  /** A whole line must be one object. */
  function Decode(line: string): Option<seq<Field>> {
    if line == [] || line[0] != '{' then None
    else
      match ReadMembers(line[1..])
      case None => None
      case Some((fs, rest)) => if rest == "}" then Some(fs) else None
  }

  // ---------------------------------------------------------------------------------------
  // The round trip
  // ---------------------------------------------------------------------------------------

  predicate EndsNumber(s: string) { s == [] || (!IsDigit(s[0]) && s[0] != '.') }

  lemma DigitBack(d: nat)
    requires d < 10
    ensures IsDigit(Digit(d)) && DigitValue(Digit(d)) == d
  {
  }

  lemma {:induction false} DigitsStart(n: nat)
    ensures IsDigit(Digits(n)[0]) && (Digits(n)[0] == '0' ==> n == 0)
    ensures n == 0 ==> Digits(n) == "0"
    decreases n
  {
    if n < 10 {
      DigitBack(n);
    } else {
      DigitsStart(n / 10);
    }
  }

  lemma {:induction false} ReadDigitsBack(n: nat, s: string)
    ensures ReadDigits(0, Digits(n) + s) == ReadDigits(n, s)
    decreases n
  {
    if n < 10 {
      DigitBack(n);
      assert ([Digit(n)] + s)[1..] == s;
    } else {
      var d := n % 10;
      DigitBack(d);
      assert Digits(n) + s == Digits(n / 10) + ([Digit(d)] + s);
      ReadDigitsBack(n / 10, [Digit(d)] + s);
      assert ([Digit(d)] + s)[1..] == s;
    }
  }

  /** The whole part of a number that goes on with s, which does not start with a digit. */
  lemma ReadWhole(n: nat, s: string)
    requires s == [] || !IsDigit(s[0])
    ensures
      var t := Digits(n) + s;
      IsDigit(t[0]) && !(t[0] == '0' && |t| > 1 && IsDigit(t[1])) &&
      ReadDigits(DigitValue(t[0]), t[1..]) == (n, s)
  {
    var t := Digits(n) + s;
    DigitsStart(n);
    ReadDigitsBack(n, s);
    assert t[0] == Digits(n)[0];
    assert ReadDigits(0, t) == ReadDigits(DigitValue(t[0]), t[1..]);
    if t[0] == '0' {
      assert t == "0" + s;
    }
  }

  lemma ReadInteger(n: nat, s: string)
    requires EndsNumber(s)
    ensures ReadUnsigned(Digits(n) + s) == Some((Number(n, 0), s))
  {
    ReadWhole(n, s);
  }

  lemma ReadOne(acc: nat, d: nat, s: string)
    requires d < 10
    ensures ReadDigits(acc, [Digit(d)] + s) == ReadDigits(acc * 10 + d, s)
  {
    DigitBack(d);
    assert ([Digit(d)] + s)[1..] == s;
  }

  lemma HundredsTensOnes(a: nat)
    ensures (a / 100 * 10 + a / 10 % 10) * 10 + a % 10 == a
  {
  }

  lemma ReadPlaces(a: nat, s: string)
    requires EndsNumber(s)
    ensures ReadDigits(a / 100, Places(a) + s) == (a, s)
  {
    var x, y := a / 10 % 10, a % 10;
    assert Places(a) + s == [Digit(x)] + ([Digit(y)] + s);
    ReadOne(a / 100, x, [Digit(y)] + s);
    ReadOne(a / 100 * 10 + x, y, s);
    HundredsTensOnes(a);
  }

  lemma ReadTwoPlaces(a: nat, s: string)
    requires EndsNumber(s)
    ensures ReadUnsigned(Digits(a / 100) + ("." + (Places(a) + s))) == Some((Number(a, 2), s))
  {
    var tail := "." + (Places(a) + s);
    ReadWhole(a / 100, tail);
    assert tail[1..] == Places(a) + s;
    ReadPlaces(a, s);
  }

  lemma ReadUnsignedBack(a: nat, scale: nat, s: string)
    requires (scale == 0 || scale == 2) && EndsNumber(s)
    ensures ReadUnsigned(Unsigned(a, scale) + s) == Some((Number(a, scale), s))
    ensures IsDigit((Unsigned(a, scale) + s)[0])
  {
    if scale == 0 {
      ReadInteger(a, s);
      DigitsStart(a);
    } else {
      ReadTwoPlaces(a, s);
      DigitsStart(a / 100);
      assert Unsigned(a, scale) + s == Digits(a / 100) + ("." + (Places(a) + s));
    }
  }

  lemma ReadSigned(m: int, scale: nat, u: string, s: string)
    requires ReadUnsigned(u + s) == Some((Number(Abs(m), scale), s)) && IsDigit((u + s)[0])
    ensures ReadNumber(Sign(m) + u + s) == Some((Number(m, scale), s))
    ensures (Sign(m) + u + s)[0] != '"'
  {
    var t := Sign(m) + u + s;
    if m < 0 {
      assert t == "-" + (u + s);
      assert t[1..] == u + s;
    } else {
      assert t == u + s;
    }
  }

  lemma ReadNumberBack(m: int, scale: nat, s: string)
    requires (scale == 0 || scale == 2) && EndsNumber(s)
    ensures ReadNumber(RenderValue(Number(m, scale)) + s) == Some((Number(m, scale), s))
    ensures (RenderValue(Number(m, scale)) + s)[0] != '"'
  {
    ReadUnsignedBack(Abs(m), scale, s);
    ReadSigned(m, scale, Unsigned(Abs(m), scale), s);
  }

  lemma {:induction false} ReadTextBack(t: string, s: string)
    requires Plain(t)
    ensures ReadText(t + ("\"" + s)) == Some((t, s))
    decreases |t|
  {
    var u := t + ("\"" + s);
    if t == [] {
      assert u == "\"" + s && u[1..] == s;
    } else {
      assert t[0] in t && u[0] == t[0] && u[1..] == t[1..] + ("\"" + s);
      ReadTextBack(t[1..], s);
      assert [t[0]] + t[1..] == t;
    }
  }

  lemma ReadValueBack(v: Value, s: string)
    requires Printable(v) && EndsNumber(s)
    ensures ReadValue(RenderValue(v) + s) == Some((v, s))
  {
    match v
    case Text(t) =>
      ReadTextBack(t, s);
      assert RenderValue(v) + s == "\"" + (t + ("\"" + s));
      assert ("\"" + (t + ("\"" + s)))[1..] == t + ("\"" + s);
    case Number(m, scale) =>
      ReadNumberBack(m, scale, s);
  }

  lemma Nested(a: string, b: string, c: string, d: string, e: string, s: string)
    ensures (a + (b + (c + (d + e)))) + s == a + (b + (c + (d + (e + s))))
  {
    assert (d + e) + s == d + (e + s);
    assert (c + (d + e)) + s == c + ((d + e) + s);
    assert (b + (c + (d + e))) + s == b + ((c + (d + e)) + s);
  }

  lemma ReadMemberOf(key: string, v: Value, w: string, s: string)
    requires ReadText(key + ("\"" + (":" + w))) == Some((key, ":" + w)) && ReadValue(w) == Some((v, s))
    ensures ReadMember("\"" + (key + ("\"" + (":" + w)))) == Some((Field(key, v), s))
  {
    var t := key + ("\"" + (":" + w));
    assert ("\"" + t)[1..] == t;
    assert (":" + w)[1..] == w;
  }

  lemma ReadMemberBack(f: Field, s: string)
    requires Plain(f.key) && Printable(f.value) && EndsNumber(s)
    ensures ReadMember(RenderMember(f) + s) == Some((f, s))
  {
    var w := RenderValue(f.value) + s;
    ReadValueBack(f.value, s);
    ReadTextBack(f.key, ":" + w);
    ReadMemberOf(f.key, f.value, w, s);
    Nested("\"", f.key, "\"", ":", RenderValue(f.value), s);
  }

  lemma {:induction false} ReadMembersBack(fs: seq<Field>, s: string)
    requires fs != [] && forall f :: f in fs ==> Plain(f.key) && Printable(f.value)
    requires EndsNumber(s) && (s == [] || s[0] != ',')
    ensures ReadMembers(RenderMembers(fs) + s) == Some((fs, s))
    decreases |fs|
  {
    if |fs| == 1 {
      ReadMemberBack(fs[0], s);
      assert [fs[0]] == fs;
    } else {
      var more := RenderMembers(fs[1..]) + s;
      ReadMembersBack(fs[1..], s);
      ReadMemberBack(fs[0], "," + more);
      CommaBetween(RenderMember(fs[0]), RenderMembers(fs[1..]), s);
      ReadAnother(RenderMember(fs[0]), fs[0], fs[1..], more, s);
      assert [fs[0]] + fs[1..] == fs;
    }
  }

  lemma CommaBetween(a: string, b: string, s: string)
    ensures (a + ("," + b)) + s == a + ("," + (b + s))
  {
    assert ("," + b) + s == "," + (b + s);
  }

  lemma ReadAnother(first: string, f: Field, fs: seq<Field>, more: string, s: string)
    requires ReadMember(first + ("," + more)) == Some((f, "," + more))
    requires ReadMembers(more) == Some((fs, s))
    ensures ReadMembers(first + ("," + more)) == Some(([f] + fs, s))
  {
    assert ("," + more)[1..] == more;
  }

  /** A device name of the configuration's size that %s copies safely. */
  predicate DeviceName(device: string) { |device| <= 63 && Plain(device) }

  lemma KeysPlain()
    ensures Plain("device_id") && Plain("timestamp_ms") && Plain("ph") && Plain("temperature") && Plain("turbidity")
  {
  }

  lemma OtherKeysPlain()
    ensures Plain("conductivity") && Plain("sensor_status") && Plain("alarm_status") && Plain("sequence")
  {
  }

  lemma FieldsPrintable(device: string, s: Sample)
    requires Plain(device)
    ensures forall f :: f in Fields(device, s) ==> Plain(f.key) && Printable(f.value)
  {
    KeysPlain();
    OtherKeysPlain();
  }

  /** The receiver reads back the device name, the integers and the hundredths that were sent,
      negative temperatures included. */
  lemma JsonRoundTrip(device: string, s: Sample)
    requires Plain(device)
    ensures Decode(Body(device, s)) == Some(Fields(device, s))
  {
    var fs := Fields(device, s);
    FieldsPrintable(device, s);
    ReadMembersBack(fs, "}");
    assert Body(device, s)[1..] == RenderMembers(fs) + "}";
  }

  // ---------------------------------------------------------------------------------------
  // One line, and short enough
  // ---------------------------------------------------------------------------------------

  predicate OneLine(s: string) { '\n' !in s }

  lemma {:induction false} DigitsOneLine(n: nat)
    ensures OneLine(Digits(n))
    decreases n
  {
    if n < 10 {
      DigitBack(n);
    } else {
      DigitBack(n % 10);
      DigitsOneLine(n / 10);
    }
  }

  lemma ValueOneLine(v: Value)
    requires Printable(v)
    ensures OneLine(RenderValue(v))
  {
    match v
    case Text(t) =>
    case Number(m, scale) =>
      var a := Abs(m);
      DigitsOneLine(a);
      DigitsOneLine(a / 100);
      DigitBack(a / 10 % 10);
      DigitBack(a % 10);
  }

  lemma {:induction false} MembersOneLine(fs: seq<Field>)
    requires fs != [] && forall f :: f in fs ==> Plain(f.key) && Printable(f.value)
    ensures OneLine(RenderMembers(fs))
    decreases |fs|
  {
    ValueOneLine(fs[0].value);
    if |fs| > 1 {
      MembersOneLine(fs[1..]);
    }
  }

  function Pow10(k: nat): nat {
    if k == 0 then 1 else 10 * Pow10(k - 1)
  }

  lemma {:induction false} DigitsShort(n: nat, k: nat)
    requires k >= 1 && n < Pow10(k)
    ensures |Digits(n)| <= k
    decreases k
  {
    if n >= 10 {
      DigitsShort(n / 10, k - 1);
    }
  }

  /** How long a rendered value can get. */
  lemma NumberShort(m: int, scale: nat, k: nat)
    requires k >= 1 && Abs(m) < (if scale == 0 then Pow10(k) else 100 * Pow10(k)) && (scale == 0 || scale == 2)
    ensures |RenderValue(Number(m, scale))| <= (if m < 0 then 1 else 0) + k + (if scale == 0 then 0 else 3)
  {
    var a := Abs(m);
    if scale == 0 {
      DigitsShort(a, k);
    } else {
      DigitsShort(a / 100, k);
    }
  }

  function TotalLength(fs: seq<Field>): nat
    decreases |fs|
  {
    if fs == [] then 0 else |fs[0].key| + 4 + |RenderValue(fs[0].value)| + TotalLength(fs[1..])
  }

  lemma {:induction false} MembersLength(fs: seq<Field>)
    requires fs != []
    ensures |RenderMembers(fs)| + 1 == TotalLength(fs)
    decreases |fs|
  {
    if |fs| > 1 {
      MembersLength(fs[1..]);
    }
  }

  lemma StatusShort(w: bv32)
    ensures |RenderValue(Number(w as int, 0))| <= 10
  {
    assert Pow10(10) == 10_000_000_000;
    NumberShort(w as int, 0, 10);
  }

  lemma ValuesShort(s: Sample)
    ensures |RenderValue(Number(s.timestampMs, 0))| <= 20
    ensures |RenderValue(Number(s.ph, 2))| <= 6 && |RenderValue(Number(s.turbidity, 2))| <= 6
    ensures |RenderValue(Number(s.temperature, 2))| <= 7
    ensures |RenderValue(Number(s.conductivity, 0))| <= 5
  {
    assert Pow10(3) == 1000 && Pow10(5) == 100_000 && Pow10(19) == 10_000_000_000_000_000_000;
    NumberShort(s.timestampMs, 0, 19);
    NumberShort(s.ph, 2, 3);
    NumberShort(s.turbidity, 2, 3);
    NumberShort(s.temperature, 2, 3);
    NumberShort(s.conductivity, 0, 5);
  }

  predicate ShortField(f: Field) { |f.key| + 4 + |RenderValue(f.value)| <= 40 }

  lemma {:induction false} ShortMembers(fs: seq<Field>)
    requires forall f :: f in fs ==> ShortField(f)
    ensures TotalLength(fs) <= 40 * |fs|
    decreases |fs|
  {
    if fs != [] {
      assert fs[0] in fs;
      ShortMembers(fs[1..]);
    }
  }

  /** The line always fits the uploader's 512-byte buffer, so the overflow branches that skip a
      row are dead, and its only newline is its last character. */
  lemma JsonFits(device: string, s: Sample)
    requires DeviceName(device)
    ensures |BuildJson(device, s)| < 512
    ensures OneLine(Body(device, s))
  {
    var fs := Fields(device, s);
    FieldsPrintable(device, s);
    MembersOneLine(fs);
    MembersLength(fs);
    OthersShort(device, s);
    ShortMembers(fs[1..]);
    assert |RenderValue(fs[0].value)| == |device| + 2;
  }

  lemma StatusFieldsShort(w: bv32)
    ensures ShortField(Field("sensor_status", Number(w as int, 0)))
    ensures ShortField(Field("alarm_status", Number(w as int, 0)))
    ensures ShortField(Field("sequence", Number(w as int, 0)))
  {
    StatusShort(w);
  }

  lemma ValueFieldsShort(s: Sample)
    ensures ShortField(Field("timestamp_ms", Number(s.timestampMs, 0)))
    ensures ShortField(Field("ph", Number(s.ph, 2))) && ShortField(Field("turbidity", Number(s.turbidity, 2)))
    ensures ShortField(Field("temperature", Number(s.temperature, 2)))
    ensures ShortField(Field("conductivity", Number(s.conductivity, 0)))
  {
    ValuesShort(s);
  }

  lemma OthersShort(device: string, s: Sample)
    ensures forall f :: f in Fields(device, s)[1..] ==> ShortField(f)
  {
    ValueFieldsShort(s);
    StatusFieldsShort(s.sensorStatus);
    StatusFieldsShort(s.alarmStatus);
    StatusFieldsShort(s.sequence);
  }

  // ---------------------------------------------------------------------------------------
  // The line as the format string has it
  // ---------------------------------------------------------------------------------------

  /** What a string of decimal digits stands for. */
  function Numeral(s: string): int
    decreases |s|
  {
    if s == [] then 0 else 10 * Numeral(s[..|s| - 1]) + (s[|s| - 1] as int - '0' as int)
  }

  /** A number is printed in decimal, without leading zeros ... */
  lemma {:induction false} DigitsAreDecimal(n: nat)
    ensures Numeral(Digits(n)) == n && (forall c :: c in Digits(n) ==> '0' <= c <= '9')
    ensures Digits(n)[0] == '0' ==> Digits(n) == "0"
    decreases n
  {
    DigitsStart(n);
    if n < 10 {
      DigitBack(n);
      assert [Digit(n)][..0] == [];
    } else {
      DigitBack(n % 10);
      DigitsAreDecimal(n / 10);
      assert Digits(n)[..|Digits(n)| - 1] == Digits(n / 10);
    }
  }

  lemma OneDigit(c: char)
    ensures Numeral([c]) == c as int - '0' as int
  {
    assert [c][..0] == [];
  }

  lemma TwoDigits(x: nat, y: nat)
    requires x < 10 && y < 10
    ensures Numeral([Digit(x), Digit(y)]) == 10 * x + y
  {
    DigitBack(x);
    DigitBack(y);
    OneDigit(Digit(x));
    assert [Digit(x), Digit(y)][..1] == [Digit(x)];
  }

  lemma LastTwo(a: nat)
    ensures 10 * (a / 10 % 10) + a % 10 == a % 100
  {
  }

  /** ... and hundredths with two digits behind the point. */
  lemma PlacesAreDecimal(a: nat)
    ensures |Places(a)| == 2 && Numeral(Places(a)) == a % 100 && (forall c :: c in Places(a) ==> '0' <= c <= '9')
  {
    DigitBack(a / 10 % 10);
    DigitBack(a % 10);
    TwoDigits(a / 10 % 10, a % 10);
    LastTwo(a);
  }

  /** A key and its value in front of what follows. */
  function Put(key: string, value: string, rest: string): string { "\"" + (key + ("\":" + (value + rest))) }

  lemma MemberAs(f: Field, rest: string)
    ensures RenderMember(f) + rest == Put(f.key, RenderValue(f.value), rest)
  {
    var v := RenderValue(f.value);
    Nested("\"", f.key, "\"", ":", v, rest);
    assert "\"" + (":" + (v + rest)) == "\":" + (v + rest);
  }

  /** The members from the i-th on, with the closing brace. */
  lemma MembersFrom(fs: seq<Field>, i: nat, rest: string)
    requires i + 1 < |fs| && rest == RenderMembers(fs[i + 1..]) + "}"
    ensures RenderMembers(fs[i..]) + "}" == Put(fs[i].key, RenderValue(fs[i].value), "," + rest)
  {
    assert fs[i..][1..] == fs[i + 1..];
    CommaBetween(RenderMember(fs[i]), RenderMembers(fs[i + 1..]), "}");
    MemberAs(fs[i], "," + rest);
  }

  /** Two members more. */
  lemma TwoMore(fs: seq<Field>, i: nat, rest: string)
    requires i + 2 < |fs| && rest == RenderMembers(fs[i + 2..]) + "}"
    ensures RenderMembers(fs[i..]) + "}" ==
      Put(fs[i].key, RenderValue(fs[i].value), "," +
      Put(fs[i + 1].key, RenderValue(fs[i + 1].value), "," + rest))
  {
    MembersFrom(fs, i + 1, rest);
    MembersFrom(fs, i, RenderMembers(fs[i + 1..]) + "}");
  }

  lemma LastMember(fs: seq<Field>)
    requires fs != []
    ensures
      var f := fs[|fs| - 1];
      RenderMembers(fs[|fs| - 1..]) + "}" == Put(f.key, RenderValue(f.value), "}")
  {
    MemberAs(fs[|fs| - 1], "}");
  }

  /** The end of the line, from the sensor's status on. */
  function StatusLine(s: Sample): string {
    Put("sensor_status", Decimal(s.sensorStatus as int), "," +
    Put("alarm_status", Decimal(s.alarmStatus as int), "," +
    Put("sequence", Decimal(s.sequence as int), "}")))
  }

  lemma StatusLineIs(device: string, s: Sample)
    ensures RenderMembers(Fields(device, s)[6..]) + "}" == StatusLine(s)
  {
    var fs := Fields(device, s);
    LastMember(fs);
    TwoMore(fs, 6, RenderMembers(fs[8..]) + "}");
  }

  /** From the first measurement on. */
  function MeasurementLine(s: Sample): string {
    Put("ph", TwoPlaces(s.ph), "," +
    Put("temperature", TwoPlaces(s.temperature), "," +
    Put("turbidity", TwoPlaces(s.turbidity), "," +
    Put("conductivity", Decimal(s.conductivity), "," + StatusLine(s)))))
  }

  lemma MeasurementLineIs(device: string, s: Sample)
    ensures RenderMembers(Fields(device, s)[2..]) + "}" == MeasurementLine(s)
  {
    var fs := Fields(device, s);
    StatusLineIs(device, s);
    TwoMore(fs, 4, StatusLine(s));
    TwoMore(fs, 2, RenderMembers(fs[4..]) + "}");
  }

  /** All the members, given those from the third on. */
  function MemberLine(device: string, timestampMs: int, rest: string): string {
    Put("device_id", "\"" + (device + "\""), "," + Put("timestamp_ms", Decimal(timestampMs), "," + rest))
  }

  lemma MemberLineIs(device: string, s: Sample)
    ensures RenderMembers(Fields(device, s)[0..]) + "}" == MemberLine(device, s.timestampMs, MeasurementLine(s))
  {
    var fs := Fields(device, s);
    MeasurementLineIs(device, s);
    TwoMore(fs, 0, RenderMembers(fs[2..]) + "}");
  }

  lemma FromFirst(fs: seq<Field>)
    ensures fs[0..] == fs
  {
  }

  /** The line is the uploader's format string with these values put in: integers in decimal, and
      measurements with two decimal places. */
  lemma FormatIs(device: string, s: Sample)
    ensures BuildJson(device, s) == "{" + MemberLine(device, s.timestampMs, MeasurementLine(s)) + "\n"
  {
    MemberLineIs(device, s);
    FromFirst(Fields(device, s));
  }
}
