/** From bytes to messages: the number parsers, the tag=value parser and the framing loop. */
module Fix {
  import opened Types

  const SOH: char := 1 as char

  datatype FixMessage = FixMessage(
    msgType: char, side: char, ordType: char, qty: int, price: int, clOrdID: string, origClOrdID: string)

  /** `ParsedFixMessage::reset`. */
  const RESET := FixMessage(0 as char, 0 as char, 0 as char, 0, 0, "", "")

  // ---------- numbers ----------

  function Digit(c: char): int {
    c as int - '0' as int
  }

  /** Positional value of a string of characters, the last one least significant. */
  function Value(s: string): int {
    if s == [] then 0 else Value(s[..|s| - 1]) * 10 + Digit(s[|s| - 1])
  }

  method ParseFastInt(s: string) returns (val: int)
    ensures val == Value(s)
  {
    val := 0;
    for p := 0 to |s|
      invariant val == Value(s[..p])
    {
      val := val * 10 + Digit(s[p]);
      assert s[..p + 1][..p] == s[..p];
    }
    assert s[..|s|] == s;
  }

  function Power10(n: nat): nat {
    if n == 0 then 1 else 10 * Power10(n - 1)
  }

  /** The scan of `parseFastDecimal` from one character on: value so far, decimals counted. */
  function Scan(s: string, val: int, decimals: nat, seenDot: bool): (int, nat)
    requires decimals < 4
  {
    if s == [] then (val, decimals)
    else if s[0] == '.' then Scan(s[1..], val, decimals, true)
    else
      var val' := val * 10 + Digit(s[0]);
      if !seenDot then Scan(s[1..], val', decimals, false)
      else if decimals + 1 == 4 then (val', 4)
      else Scan(s[1..], val', decimals + 1, true)
  }

  lemma {:induction false} ScanCounts(s: string, val: int, decimals: nat, seenDot: bool)
    requires decimals < 4
    ensures Scan(s, val, decimals, seenDot).1 <= 4
  {
    if s != [] && !(seenDot && s[0] != '.' && decimals + 1 == 4) {
      ScanCounts(s[1..], if s[0] == '.' then val else val * 10 + Digit(s[0]),
                 if seenDot && s[0] != '.' then decimals + 1 else decimals, seenDot || s[0] == '.');
    }
  }

  function Decimal(s: string): int {
    ScanCounts(s, 0, 0, false);
    var (val, decimals) := Scan(s, 0, 0, false);
    val * Power10(4 - decimals)
  }

  method ParseFastDecimal(s: string) returns (val: int)
    ensures val == Decimal(s)
  {
    val := 0;
    var impliedDecimals := 4;
    var decimalCount := 0;
    var seenDot := false;
    ghost var scanned := Scan(s, 0, 0, false);
    ScanCounts(s, 0, 0, false);
    var p := 0;
    assert s[0..] == s;
    while p < |s|
      invariant p <= |s| && decimalCount < 4
      invariant Scan(s[p..], val, decimalCount, seenDot) == scanned
    {
      var c := s[p];
      assert s[p..][1..] == s[p + 1..];
      p := p + 1;
      if c == '.' {
        seenDot := true;
        continue;
      }
      val := val * 10 + Digit(c);
      if seenDot {
        decimalCount := decimalCount + 1;
        if decimalCount == impliedDecimals { break; }
      }
    }
    assert scanned == (val, decimalCount);
    ghost var value, counted := val, decimalCount;
    while decimalCount < impliedDecimals
      invariant counted <= decimalCount <= 4
      invariant val == value * Power10(decimalCount - counted)
    {
      assert Power10(decimalCount + 1 - counted) == 10 * Power10(decimalCount - counted);
      val := val * 10;
      decimalCount := decimalCount + 1;
    }
  }

  lemma {:induction false} ValueConcat(a: string, b: string)
    ensures Value(a + b) == Value(a) * Power10(|b|) + Value(b)
  {
    if b == [] {
      assert a + b == a;
    } else {
      var b' := b[..|b| - 1];
      assert (a + b)[..|a + b| - 1] == a + b';
      ValueConcat(a, b');
      assert Power10(|b|) == 10 * Power10(|b'|);
      Scale(Value(a), Power10(|b'|));
    }
  }

  lemma Scale(x: int, p: int)
    ensures x * p * 10 == x * (10 * p)
  {}

  lemma Distribute(x: int, d: int, p: int)
    ensures (x * 10 + d) * p == x * (10 * p) + d * p
  {}

  /** One digit more in front. */
  lemma PushDigit(s: string, val: int)
    requires s != []
    ensures (val * 10 + Digit(s[0])) * Power10(|s| - 1) + Value(s[1..]) == val * Power10(|s|) + Value(s)
  {
    hide Digit, Value, Power10;
    ValueConcat([s[0]], s[1..]);
    assert [s[0]] + s[1..] == s;
    OneDigit(s[0]);
    TenTimes(|s| - 1);
    Distribute(val, Digit(s[0]), Power10(|s| - 1));
  }

  lemma TenTimes(n: nat)
    ensures Power10(n + 1) == 10 * Power10(n)
  {}

  lemma OneDigit(c: char)
    ensures Value([c]) == Digit(c)
  {
    assert [c][..0] == [];
  }

  lemma {:induction false} ScanWhole(a: string, b: string, val: int)
    requires '.' !in a
    ensures Scan(a + b, val, 0, false) == Scan(b, val * Power10(|a|) + Value(a), 0, false)
  {
    if a == [] {
      assert a + b == b;
    } else {
      assert (a + b)[1..] == a[1..] + b;
      ScanWhole(a[1..], b, val * 10 + Digit(a[0]));
      PushDigit(a, val);
    }
  }

  lemma {:induction false} ScanFraction(b: string, val: int, decimals: nat)
    requires '.' !in b && decimals < 4
    ensures Scan(b, val, decimals, true)
         == var n := Min(|b|, 4 - decimals); (val * Power10(n) + Value(b[..n]), decimals + n)
  {
    hide Digit, Value, Power10;
    if b == [] {
      NoDigits();
    } else {
      var d := val * 10 + Digit(b[0]);
      var n := Min(|b|, 4 - decimals);
      assert b[..n][0] == b[0] && b[..n][1..] == b[1..n];
      PushDigit(b[..n], val);
      if decimals + 1 < 4 {
        ScanFraction(b[1..], d, decimals + 1);
        assert b[1..][..n - 1] == b[1..n];
      } else {
        assert b[1..n] == [];
        NoDigits();
      }
    }
  }

  lemma NoDigits()
    ensures Value([]) == 0 && Power10(0) == 1
  {}

  lemma {:induction false} ZerosAfter(a: string, n: nat)
    requires n <= 4
    ensures Value(a + "0000"[..n]) == Value(a) * Power10(n)
  {
    var z := "0000"[..n];
    ValueConcat(a, z);
    ZeroValue(n);
  }

  lemma {:induction false} ZeroValue(n: nat)
    requires n <= 4
    ensures Value("0000"[..n]) == 0
  {
    if n > 0 {
      assert "0000"[..n][..n - 1] == "0000"[..n - 1];
      ZeroValue(n - 1);
    }
  }

  function NoDots(s: string): (r: string)
    ensures '.' !in r && ('.' !in s ==> r == s)
  {
    if s == [] then [] else (if s[0] == '.' then [] else [s[0]]) + NoDots(s[1..])
  }

  /** One character of the scan behind the point. */
  lemma ScanNext(c: char, s: string, val: int, decimals: nat)
    requires decimals < 4
    ensures Scan([c] + s, val, decimals, true)
         == if c == '.' then Scan(s, val, decimals, true)
            else if decimals == 3 then (val * 10 + Digit(c), 4)
            else Scan(s, val * 10 + Digit(c), decimals + 1, true)
  {
    hide Digit;
    assert ([c] + s)[1..] == s;
  }

  lemma {:induction false} DotsIgnored(b: string, val: int, decimals: nat)
    requires decimals < 4
    ensures Scan(b, val, decimals, true) == Scan(NoDots(b), val, decimals, true)
  {
    hide Scan, Digit;
    if b != [] {
      assert b == [b[0]] + b[1..];
      ScanNext(b[0], b[1..], val, decimals);
      if b[0] == '.' {
        assert [] + NoDots(b[1..]) == NoDots(b[1..]);
        DotsIgnored(b[1..], val, decimals);
      } else {
        ScanNext(b[0], NoDots(b[1..]), val, decimals);
        if decimals < 3 { DotsIgnored(b[1..], val * 10 + Digit(b[0]), decimals + 1); }
      }
    }
  }

  /** What a price means, whatever its characters: what is before the first point followed by exactly four
      characters of what is after it, other points skipped, padded with zeros or cut off; without a point
      it is whole. */
  lemma DecimalMeaning(a: string, b: string)
    requires '.' !in a
    ensures Decimal(a + "." + b) == Value(a + (NoDots(b) + "0000")[..4])
    ensures Decimal(a) == Value(a + "0000")
  {
    hide Value, Scan, Power10, NoDots;
    FirstPoint(a, b);
    WithPoint(a, NoDots(b));
    WithoutPoint(a);
  }

  lemma FirstPoint(a: string, b: string)
    requires '.' !in a
    ensures Decimal(a + "." + b) == Decimal(a + "." + NoDots(b))
  {
    hide Value, Power10, NoDots;
    ScanWhole(a, "." + b, 0);
    ScanWhole(a, "." + NoDots(b), 0);
    assert a + "." + b == a + ("." + b) && ("." + b)[1..] == b;
    assert a + "." + NoDots(b) == a + ("." + NoDots(b)) && ("." + NoDots(b))[1..] == NoDots(b);
    DotsIgnored(b, 0 * Power10(|a|) + Value(a), 0);
  }

  lemma WithPoint(a: string, b: string)
    requires '.' !in a && '.' !in b
    ensures Decimal(a + "." + b) == Value(a + (b + "0000")[..4])
  {
    hide Value, Power10;
    var n := Min(|b|, 4);
    ScanWhole(a, "." + b, 0);
    assert a + "." + b == a + ("." + b) && ("." + b)[1..] == b;
    ScanFraction(b, Value(a), 0);
    ValueConcat(a, b[..n]);
    ZerosAfter(a + b[..n], 4 - n);
    assert a + (b + "0000")[..4] == a + b[..n] + "0000"[..4 - n];
  }

  lemma WithoutPoint(a: string)
    requires '.' !in a
    ensures Decimal(a) == Value(a + "0000")
  {
    hide Value, Power10;
    ScanWhole(a, [], 0);
    assert a + [] == a;
    ZerosAfter(a, 4);
    assert "0000"[..4] == "0000";
  }

  // ---------- fields ----------

  /** `int tag = parseFastInt(...)`: the 64-bit value is narrowed to 32 bits. */
  function Narrow(x: int): int {
    (x + 0x8000_0000) % TWO32 - 0x8000_0000
  }

  lemma NarrowIs(x: int)
    ensures -0x8000_0000 <= Narrow(x) < 0x8000_0000 && (x - Narrow(x)) % TWO32 == 0
    ensures -0x8000_0000 <= x < 0x8000_0000 ==> Narrow(x) == x
  {}

  /** The switch of `parseFixMessage`. */
  function SetField(m: FixMessage, tag: int, value: string): FixMessage {
    match tag
    case 35 => if value != [] then m.(msgType := value[0]) else m
    case 54 => if value != [] then m.(side := value[0]) else m
    case 40 => if value != [] then m.(ordType := value[0]) else m
    case 38 => m.(qty := Value(value))
    case 44 => m.(price := Decimal(value))
    case 11 => m.(clOrdID := value)
    case 41 => m.(origClOrdID := value)
    case _ => m
  }

  /** Position of the first `c`, or the length if there is none. */
  function IndexOf(s: string, c: char): (i: nat)
    ensures i <= |s| && c !in s[..i] && (i < |s| ==> s[i] == c)
  {
    if s == [] || s[0] == c then 0
    else
      var i := IndexOf(s[1..], c);
      assert s[..i + 1] == [s[0]] + s[1..][..i];
      i + 1
  }

  function Parse(s: string, m: FixMessage): (bool, FixMessage)
    decreases |s|
  {
    if s == [] then (true, m)
    else
      var t := IndexOf(s, '=');
      if t == |s| then (false, m)
      else
        var rest := s[t + 1..];
        var v := IndexOf(rest, SOH);
        var m' := SetField(m, Narrow(Value(s[..t])), rest[..v]);
        if v == |rest| then (true, m') else Parse(rest[v + 1..], m')
  }

  lemma IndexOfAtMost(s: string, c: char, k: nat)
    requires k < |s| && s[k] == c
    ensures IndexOf(s, c) <= k
  {
    var i := IndexOf(s, c);
    assert forall j :: 0 <= j < i ==> s[..i][j] == s[j];
  }

  lemma NoneBefore(s: string, i: nat, c: char, j: nat)
    requires i <= |s| && i <= j < i + IndexOf(s[i..], c)
    ensures s[j] != c
  {
    hide IndexOf;
    var n := IndexOf(s[i..], c);
    assert s[i..][..n][j - i] == s[j];
  }

  lemma {:induction false} IndexOfUnique(s: string, c: char, i: nat)
    requires i <= |s| && c !in s[..i] && (i < |s| ==> s[i] == c)
    ensures IndexOf(s, c) == i
  {
    var j := IndexOf(s, c);
    assert forall k :: 0 <= k < i ==> s[..i][k] == s[k];
    assert forall k :: 0 <= k < j ==> s[..j][k] == s[k];
  }

  /** `while (e < end && *e != c) e++`. */
  method ScanTo(s: string, start: nat, c: char) returns (e: nat)
    requires start <= |s|
    ensures e == start + IndexOf(s[start..], c)
  {
    e := start;
    while e < |s| && s[e] != c
      invariant start <= e <= |s|
      invariant c !in s[start..e]
    {
      assert s[start..e + 1] == s[start..e] + [s[e]];
      e := e + 1;
    }
    assert s[start..][..e - start] == s[start..e];
    IndexOfUnique(s[start..], c, e - start);
  }

  /** The switch on the tag, as it runs. */
  method AssignField(m: FixMessage, tag: int, value: string) returns (m': FixMessage)
    ensures m' == SetField(m, tag, value)
  {
    m' := m;
    match tag {
      case 35 => if value != [] { m' := m.(msgType := value[0]); }
      case 54 => if value != [] { m' := m.(side := value[0]); }
      case 40 => if value != [] { m' := m.(ordType := value[0]); }
      case 38 =>
        var q := ParseFastInt(value);
        m' := m.(qty := q);
      case 44 =>
        var p := ParseFastDecimal(value);
        m' := m.(price := p);
      case 11 => m' := m.(clOrdID := value);
      case 41 => m' := m.(origClOrdID := value);
      case _ =>
    }
  }

  lemma SuffixOfSuffix(s: string, i: nat, j: nat)
    requires i <= j <= |s|
    ensures s[i..][j - i..] == s[j..]
  {}

  /** A field with another one behind it. */
  lemma ParseUnfold(s: string, rest: string, m: FixMessage)
    requires var t := IndexOf(s, '='); t < |s| && rest == s[t + 1..]
    requires IndexOf(rest, SOH) < |rest|
    ensures var t, v := IndexOf(s, '='), IndexOf(rest, SOH);
      Parse(s, m) == Parse(rest[v + 1..], SetField(m, Narrow(Value(s[..t])), rest[..v]))
  {
    hide SetField, Narrow, Value, IndexOf;
    var t, v := IndexOf(s, '='), IndexOf(rest, SOH);
    var m' := SetField(m, Narrow(Value(s[..t])), rest[..v]);
    var later := Parse(rest[v + 1..], m');
    assert s != [] && Parse(s, m) == later;
  }

  /** The last field of a buffer that does not end in SOH. */
  lemma ParseLast(s: string, rest: string, m: FixMessage)
    requires var t := IndexOf(s, '='); t < |s| && rest == s[t + 1..]
    requires IndexOf(rest, SOH) == |rest|
    ensures Parse(s, m) == (true, SetField(m, Narrow(Value(s[..IndexOf(s, '=')])), rest))
  {
    hide SetField, Narrow, Value, IndexOf;
    assert s != [] && rest[..|rest|] == rest;
  }

  /** One step of the parse, position by position. */
  lemma ParseStep(buffer: string, ptr: nat, t: nat, v: nat, m: FixMessage)
    requires ptr < |buffer| && t == ptr + IndexOf(buffer[ptr..], '=')
    requires t < |buffer| && v == t + 1 + IndexOf(buffer[t + 1..], SOH)
    ensures v <= |buffer|
    ensures var m' := SetField(m, Narrow(Value(buffer[ptr..t])), buffer[t + 1..v]);
      Parse(buffer[ptr..], m) == if v < |buffer| then Parse(buffer[v + 1..], m') else (true, m')
  {
    hide Parse, SetField, Narrow, Value, IndexOf;
    var s := buffer[ptr..];
    assert s[..t - ptr] == buffer[ptr..t];
    var rest := buffer[t + 1..];
    SuffixOfSuffix(buffer, ptr, t + 1);
    assert rest[..v - t - 1] == buffer[t + 1..v];
    if v < |buffer| {
      SuffixOfSuffix(buffer, t + 1, v + 1);
      ParseUnfold(s, rest, m);
    } else {
      assert rest == buffer[t + 1..v];
      ParseLast(s, rest, m);
    }
  }

  lemma ParseEnds(m: FixMessage)
    ensures Parse("", m) == (true, m)
  {}

  lemma ParseMalformed(s: string, m: FixMessage)
    requires s != [] && IndexOf(s, '=') == |s|
    ensures Parse(s, m) == (false, m)
  {}

  method ParseFixMessage(buffer: string) returns (ok: bool, outMsg: FixMessage)
    ensures (ok, outMsg) == Parse(buffer, RESET)
  {
    hide Parse, SetField, Value, Narrow, IndexOf;
    outMsg := RESET;
    var ptr := 0;
    assert buffer[0..] == buffer;
    while ptr < |buffer|
      invariant ptr <= |buffer| + 1
      invariant Parse(buffer, RESET) == if ptr <= |buffer| then Parse(buffer[ptr..], outMsg) else (true, outMsg)
    {
      var tagEnd := ScanTo(buffer, ptr, '=');
      if tagEnd == |buffer| {
        ParseMalformed(buffer[ptr..], outMsg);
        return false, outMsg;
      }
      var tag := ParseFastInt(buffer[ptr..tagEnd]);
      var valueEnd := ScanTo(buffer, tagEnd + 1, SOH);
      ParseStep(buffer, ptr, tagEnd, valueEnd, outMsg);
      outMsg := AssignField(outMsg, Narrow(tag), buffer[tagEnd + 1..valueEnd]);
      ptr := valueEnd + 1;
    }
    ParseEnds(outMsg);
    assert ptr == |buffer| ==> buffer[ptr..] == "";
    ok := true;
  }

  // ---------- printing ----------

  function DigitChar(d: nat): char
    requires d < 10
  {
    ('0' as int + d) as char
  }

  function PrintNat(n: nat): (s: string)
    ensures s != [] && forall c :: c in s ==> '0' <= c <= '9'
  {
    if n < 10 then [DigitChar(n)] else PrintNat(n / 10) + [DigitChar(n % 10)]
  }

  lemma {:induction false} ValueOfPrint(n: nat)
    ensures Value(PrintNat(n)) == n
  {
    if n < 10 {
      assert PrintNat(n)[..0] == [];
    } else {
      ValueOfPrint(n / 10);
      assert PrintNat(n)[..|PrintNat(n)| - 1] == PrintNat(n / 10);
    }
  }

  /** Exactly four decimal digits. */
  function PrintFour(f: nat): (s: string)
    requires f < 10000
    ensures |s| == 4 && forall c :: c in s ==> '0' <= c <= '9'
  {
    [DigitChar(f / 1000), DigitChar(f / 100 % 10), DigitChar(f / 10 % 10), DigitChar(f % 10)]
  }

  /** A fixed-point price as "dollars.dddd". */
  function PrintPrice(p: nat): string {
    PrintNat(p / 10000) + "." + PrintFour(p % 10000)
  }

  lemma Hundreds(f: nat)
    ensures f / 100 == f / 10 / 10
  {}

  lemma Thousands(f: nat)
    ensures f / 1000 == f / 100 / 10
  {}

  lemma SplitTen(x: nat)
    ensures x == x / 10 * 10 + x % 10
  {}

  lemma FourSplit(f: nat)
    ensures f == ((f / 1000 * 10 + f / 100 % 10) * 10 + f / 10 % 10) * 10 + f % 10
  {
    Hundreds(f);
    Thousands(f);
    SplitTen(f);
    SplitTen(f / 10);
    SplitTen(f / 100);
  }

  lemma FourDigits(f: nat)
    requires f < 10000
    ensures Value(PrintFour(f)) == f
  {
    hide Value;
    var s1 := [DigitChar(f / 1000)];
    var s2 := s1 + [DigitChar(f / 100 % 10)];
    var s3 := s2 + [DigitChar(f / 10 % 10)];
    Snoc([], DigitChar(f / 1000));
    Snoc(s1, DigitChar(f / 100 % 10));
    Snoc(s2, DigitChar(f / 10 % 10));
    Snoc(s3, DigitChar(f % 10));
    assert [] + s1 == s1;
    assert PrintFour(f) == s3 + [DigitChar(f % 10)];
    FourSplit(f);
  }

  lemma Snoc(s: string, c: char)
    ensures Value(s + [c]) == Value(s) * 10 + Digit(c) && Value([]) == 0
  {
    assert (s + [c])[..|s|] == s;
  }

  /** Every character counts as its distance from '0', a digit or not. */
  lemma AnyCharacterCounts(s: string, c: char)
    ensures Value(s + [c]) == 10 * Value(s) + (c as int - 48)
  {
    Snoc(s, c);
  }

  /** So ids that are not numbers can collide with ids that are. */
  lemma IdsCanCollide()
    ensures Value(":") == Value("10") == 10
  {
    AnyCharacterCounts("", ':');
    AnyCharacterCounts("", '1');
    AnyCharacterCounts("1", '0');
    assert "" + [':'] == ":" && "" + ['1'] == "1" && "1" + ['0'] == "10";
  }

  lemma Myriad()
    ensures Power10(4) == 10000
  {
    assert Power10(4) == 10 * Power10(3) == 100 * Power10(2) == 1000 * Power10(1) == 10000;
  }

  lemma PriceRoundTrip(p: nat)
    ensures Decimal(PrintPrice(p)) == p
  {
    hide Decimal, Value, Power10, NoDots, PrintNat, PrintFour;
    var a, b := PrintNat(p / 10000), PrintFour(p % 10000);
    DecimalMeaning(a, b);
    assert (b + "0000")[..4] == b;
    ValueConcat(a, b);
    ValueOfPrint(p / 10000);
    FourDigits(p % 10000);
    Myriad();
  }

  datatype Field = Field(tag: nat, value: string)

  function PrintField(f: Field): string {
    PrintNat(f.tag) + "=" + f.value + [SOH]
  }

  function PrintFields(fs: seq<Field>): string {
    if fs == [] then [] else PrintField(fs[0]) + PrintFields(fs[1..])
  }

  /** The fields assigned one after the other. */
  function Fold(m: FixMessage, fs: seq<Field>): FixMessage
    decreases |fs|
  {
    if fs == [] then m else Fold(SetField(m, fs[0].tag, fs[0].value), fs[1..])
  }

  predicate Printable(fs: seq<Field>) {
    forall i :: 0 <= i < |fs| ==> fs[i].tag < 0x8000_0000 && SOH !in fs[i].value
  }

  lemma IndexOfConcat(a: string, c: char, rest: string)
    requires c !in a
    ensures IndexOf(a + [c] + rest, c) == |a|
  {
    var s := a + [c] + rest;
    assert s[..|a|] == a && s[|a|] == c;
    IndexOfUnique(s, c, |a|);
  }

  lemma ParseOneField(f: Field, tail: string, m: FixMessage)
    requires SOH !in f.value
    ensures Parse(PrintField(f) + tail, m) == Parse(tail, SetField(m, Narrow(f.tag), f.value))
  {
    hide Parse, SetField, Value, Narrow, IndexOf, PrintNat;
    var digits := PrintNat(f.tag);
    var rest := f.value + [SOH] + tail;
    var s := PrintField(f) + tail;
    ValueOfPrint(f.tag);
    assert s == digits + ['='] + rest;
    IndexOfConcat(digits, '=', rest);
    IndexOfConcat(f.value, SOH, tail);
    assert s[..|digits|] == digits && s[|digits| + 1..] == rest;
    assert rest[..|f.value|] == f.value && rest[|f.value| + 1..] == tail;
    ParseUnfold(s, rest, m);
  }

  lemma SameNarrow(x: int)
    ensures Narrow(x + TWO32) == Narrow(x)
  {}

  /** Tags 2^32 apart name the same field. */
  lemma TagsWrap(f: Field, tail: string, m: FixMessage)
    requires SOH !in f.value
    ensures Parse(PrintField(Field(f.tag + TWO32, f.value)) + tail, m) == Parse(PrintField(f) + tail, m)
  {
    hide Parse, SetField, Narrow, PrintNat;
    SameNarrow(f.tag);
    ParseOneField(f, tail, m);
    ParseOneField(Field(f.tag + TWO32, f.value), tail, m);
  }

  /** Parsing printed fields assigns exactly those fields, in order. */
  lemma {:induction false} ParsePrint(fs: seq<Field>, m: FixMessage)
    requires Printable(fs)
    ensures Parse(PrintFields(fs), m) == (true, Fold(m, fs))
    decreases |fs|
  {
    if fs != [] {
      NarrowIs(fs[0].tag);
      ParseOneField(fs[0], PrintFields(fs[1..]), m);
      ParsePrint(fs[1..], SetField(m, fs[0].tag, fs[0].value));
    }
  }

  /** Behind the printed fields anything without a '=' makes the parse fail; the fields before it stay
      assigned. */
  lemma {:induction false} ParseStops(fs: seq<Field>, rest: string, m: FixMessage)
    requires Printable(fs) && rest != [] && '=' !in rest
    ensures Parse(PrintFields(fs) + rest, m) == (false, Fold(m, fs))
    decreases |fs|
  {
    hide Parse, SetField;
    if fs == [] {
      assert PrintFields(fs) + rest == rest;
      IndexOfUnique(rest, '=', |rest|);
      ParseMalformed(rest, m);
    } else {
      Assoc(PrintField(fs[0]), PrintFields(fs[1..]), rest);
      NarrowIs(fs[0].tag);
      ParseOneField(fs[0], PrintFields(fs[1..]) + rest, m);
      ParseStops(fs[1..], rest, SetField(m, fs[0].tag, fs[0].value));
    }
  }

  // ---------- what the fields amount to ----------

  /** The value of the last field with this tag. */
  function Last(fs: seq<Field>, tag: nat): Option<string> {
    if fs == [] then None
    else if fs[|fs| - 1].tag == tag then Some(fs[|fs| - 1].value)
    else Last(fs[..|fs| - 1], tag)
  }

  /** For the one-character tags an empty value counts as no field at all. */
  function LastChar(fs: seq<Field>, tag: nat): char {
    if fs == [] then 0 as char
    else if fs[|fs| - 1].tag == tag && fs[|fs| - 1].value != [] then fs[|fs| - 1].value[0]
    else LastChar(fs[..|fs| - 1], tag)
  }

  lemma {:induction false} FoldLastField(m: FixMessage, fs: seq<Field>)
    requires fs != []
    ensures var k := |fs| - 1; Fold(m, fs) == SetField(Fold(m, fs[..k]), fs[k].tag, fs[k].value)
    decreases |fs|
  {
    var k := |fs| - 1;
    if k > 0 {
      FoldLastField(SetField(m, fs[0].tag, fs[0].value), fs[1..]);
      assert fs[1..][..k - 1] == fs[..k][1..];
    } else {
      assert fs[..0] == [] && fs[1..] == [];
    }
  }

  /** Every field of the message is the last one sent with its tag, or what `reset` left there;
      tags the parser does not know contribute nothing. */
  lemma {:induction false} FoldIsLast(fs: seq<Field>)
    ensures var m := Fold(RESET, fs);
      && m.msgType == LastChar(fs, 35) && m.side == LastChar(fs, 54) && m.ordType == LastChar(fs, 40)
      && m.qty == (match Last(fs, 38) case None => 0 case Some(v) => Value(v))
      && m.price == (match Last(fs, 44) case None => 0 case Some(v) => Decimal(v))
      && m.clOrdID == (match Last(fs, 11) case None => "" case Some(v) => v)
      && m.origClOrdID == (match Last(fs, 41) case None => "" case Some(v) => v)
  {
    if fs != [] {
      FoldLastField(RESET, fs);
      FoldIsLast(fs[..|fs| - 1]);
    }
  }

  predicate DistinctTags(fs: seq<Field>) {
    forall i, j :: 0 <= i < j < |fs| ==> fs[i].tag != fs[j].tag
  }

  lemma {:induction false} LastOfDistinct(fs: seq<Field>, tag: nat)
    requires DistinctTags(fs)
    ensures forall v :: Last(fs, tag) == Some(v) <==> Field(tag, v) in fs
    ensures LastChar(fs, tag) == match Last(fs, tag)
      case None => 0 as char
      case Some(v) => if v == [] then 0 as char else v[0]
  {
    if fs != [] {
      var k := |fs| - 1;
      assert fs == fs[..k] + [fs[k]];
      LastOfDistinct(fs[..k], tag);
      assert forall f :: f in fs[..k] ==> f.tag != fs[k].tag;
    }
  }

  /** Field order does not matter when no tag is repeated. */
  lemma FieldOrderIrrelevant(fs: seq<Field>, gs: seq<Field>)
    requires DistinctTags(fs) && DistinctTags(gs)
    requires forall f :: f in fs <==> f in gs
    ensures Fold(RESET, fs) == Fold(RESET, gs)
  {
    FoldIsLast(fs);
    FoldIsLast(gs);
    SameLast(fs, gs, 35);
    SameLast(fs, gs, 54);
    SameLast(fs, gs, 40);
    SameLast(fs, gs, 38);
    SameLast(fs, gs, 44);
    SameLast(fs, gs, 11);
    SameLast(fs, gs, 41);
  }

  lemma SameLast(fs: seq<Field>, gs: seq<Field>, tag: nat)
    requires DistinctTags(fs) && DistinctTags(gs)
    requires forall f :: f in fs <==> f in gs
    ensures Last(fs, tag) == Last(gs, tag) && LastChar(fs, tag) == LastChar(gs, tag)
  {
    LastOfDistinct(fs, tag);
    LastOfDistinct(gs, tag);
    if Last(fs, tag).Some? { assert Last(gs, tag) == Some(Last(fs, tag).value); }
    if Last(gs, tag).Some? { assert Last(fs, tag) == Some(Last(gs, tag).value); }
  }
}
