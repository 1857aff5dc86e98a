/** The traffic counters' file: written into a fixed buffer, and read back with the JSON lookup. */
module CounterFile {
  import opened Bits
  import opened Utf8
  import opened JsonStrings
  import opened JsonNumbers
  import opened JsonGrammar
  import opened JsonScan
  import opened JsonText
  import opened Envelope
  import Calendar

  const U64: nat := 0x1_0000_0000_0000_0000

  // ---- Decimal numbers ----

  function Pow10(k: nat): nat
  {
    if k == 0 then 1 else 10 * Pow10(k - 1)
  }

  /** The digits of a number, none for zero. */
  function DigitsOf(n: nat): seq<byte>
  {
    if n == 0 then [] else DigitsOf(n / 10) + [0x30 + n % 10]
  }

  function Decimal(n: nat): seq<byte>
  {
    if n == 0 then [0x30] else DigitsOf(n)
  }

  /** The number that digits spell. */
  function ValueOf(s: seq<byte>): nat
    requires AllDigits(s)
  {
    if s == [] then 0 else 10 * ValueOf(s[..|s| - 1]) + (s[|s| - 1] - 0x30)
  }

  lemma OneMoreDigit(s: seq<byte>, d: nat)
    requires AllDigits(s) && d < 10
    ensures AllDigits(s + [0x30 + d]) && ValueOf(s + [0x30 + d]) == 10 * ValueOf(s) + d
  {
    assert (s + [0x30 + d])[..|s|] == s;
  }

  lemma {:induction false} DigitsValue(n: nat)
    ensures AllDigits(DigitsOf(n)) && ValueOf(DigitsOf(n)) == n
    ensures n > 0 ==> DigitsOf(n) != [] && DigitsOf(n)[0] != 0x30
  {
    if n > 0 {
      DigitsValue(n / 10);
      OneMoreDigit(DigitsOf(n / 10), n % 10);
      if n < 10 { assert DigitsOf(n / 10) == []; }
    }
  }

  /** A decimal is a number of the grammar, and spells its value. */
  lemma DecimalValue(n: nat)
    ensures AllDigits(Decimal(n)) && ValueOf(Decimal(n)) == n && WholeOk(Decimal(n))
  {
    DigitsValue(n);
    if n == 0 { assert [0x30][..0] == []; }
  }

  lemma {:induction false} DigitsShort(n: nat, k: nat)
    requires n < Pow10(k)
    ensures |DigitsOf(n)| <= k
    decreases k
  {
    if n > 0 { DigitsShort(n / 10, k - 1); }
  }

  /** No 64-bit number has more than 20 digits. */
  lemma DecimalFits(n: nat)
    requires n < U64
    ensures 1 <= |Decimal(n)| <= 20
  {
    assert Pow10(10) == 10_000_000_000;
    Pow10Add(10, 10);
    DigitsShort(n, 20);
    DigitsValue(n);
  }

  lemma TenTimes(x: nat, y: nat, p: nat)
    requires p == x * y
    ensures 10 * p == (10 * x) * y
  {
  }

  lemma {:induction false} Pow10Add(a: nat, b: nat)
    ensures Pow10(a + b) == Pow10(a) * Pow10(b)
  {
    if a > 0 {
      Pow10Add(a - 1, b);
      TenTimes(Pow10(a - 1), Pow10(b), Pow10(a + b - 1));
    }
  }

  function Reversed(s: seq<byte>): (r: seq<byte>)
    ensures |r| == |s|
  {
    if s == [] then [] else [s[|s| - 1]] + Reversed(s[..|s| - 1])
  }

  lemma {:induction false} ReversedAt(s: seq<byte>, k: nat)
    requires k < |s|
    ensures Reversed(s)[k] == s[|s| - 1 - k]
  {
    if k > 0 { ReversedAt(s[..|s| - 1], k - 1); }
  }

  lemma DigitStep(n: nat, v: nat, low: seq<byte>)
    requires v > 0 && DigitsOf(n) == DigitsOf(v) + Reversed(low)
    ensures DigitsOf(n) == DigitsOf(v / 10) + Reversed(low + [0x30 + v % 10])
  {
    var more := low + [0x30 + v % 10];
    assert more[..|more| - 1] == low;
    assert Reversed(more) == [0x30 + v % 10] + Reversed(low);
    Assoc(DigitsOf(v / 10), [0x30 + v % 10], Reversed(low));
  }

  /** Turn `buf[from..end]` around in place. */
  method ReverseInPlace(buf: array<byte>, from: nat, end: nat)
    requires from < end <= buf.Length
    modifies buf
    ensures buf[from..end] == Reversed(old(buf[from..end]))
    ensures buf[..from] == old(buf[..from])
  {
    ghost var was := buf[from..end];
    var lo, hi := from, end - 1;
    while lo < hi
      invariant from <= lo <= hi + 1 <= end && (lo - from) + hi + 1 == end
      invariant forall k :: from <= k < end && (k < lo || hi < k) ==> buf[k] == was[end - 1 - k]
      invariant forall k :: lo <= k <= hi ==> buf[k] == was[k - from]
      invariant buf[..from] == old(buf[..from])
    {
      buf[lo], buf[hi] := buf[hi], buf[lo];
      lo := lo + 1;
      hi := hi - 1;
    }
    forall k | 0 <= k < end - from ensures buf[from..end][k] == Reversed(was)[k] {
      ReversedAt(was, k);
      assert buf[from..end][k] == buf[from + k];
    }
  }

  /** Write the digits of a number into the buffer, last first. */
  method WriteDigits(buf: array<byte>, from: nat, n: nat) returns (end: nat)
    requires from + |DigitsOf(n)| <= buf.Length
    modifies buf
    ensures end == from + |DigitsOf(n)| && Reversed(buf[from..end]) == DigitsOf(n)
    ensures buf[..from] == old(buf[..from])
  {
    end := from;
    var v := n;
    assert Reversed([]) == [] && DigitsOf(n) + [] == DigitsOf(n);
    while v > 0
      invariant from <= end <= buf.Length
      invariant DigitsOf(n) == DigitsOf(v) + Reversed(buf[from..end])
      invariant buf[..from] == old(buf[..from])
    {
      ghost var low := buf[from..end];
      DigitStep(n, v, low);
      buf[end] := 0x30 + v % 10;
      assert buf[from..end + 1] == low + [0x30 + v % 10];
      v := v / 10;
      end := end + 1;
    }
  }

  lemma SplitAt(s: seq<byte>, k: nat)
    requires k <= |s|
    ensures s == s[..k] + s[k..]
  {
  }

  /** Write a number into the buffer: its digits last first, then turned around. */
  method WriteU64(buf: array<byte>, from: nat, n: nat) returns (end: nat)
    requires from + |Decimal(n)| <= buf.Length
    modifies buf
    ensures end == from + |Decimal(n)|
    ensures buf[..end] == old(buf[..from]) + Decimal(n)
  {
    if n == 0 {
      buf[from] := 0x30;
      return from + 1;
    }
    end := WriteDigits(buf, from, n);
    DigitsValue(n);
    ReverseInPlace(buf, from, end);
    SplitAt(buf[..end], from);
    assert buf[..end][..from] == buf[..from] && buf[..end][from..] == buf[from..end];
  }

  // ---- Reading numbers ----

  /** An unsigned 64-bit number, as the standard parser reads one. */
  function ParsedU64(s: seq<byte>): Option<nat>
  {
    var d := if s != [] && s[0] == 0x2B then s[1..] else s;
    if d == [] || !AllDigits(d) || ValueOf(d) >= U64 then None else Some(ValueOf(d))
  }

  lemma {:induction false} PrefixValue(s: seq<byte>, k: nat)
    requires AllDigits(s) && k <= |s|
    ensures ValueOf(s[..k]) <= ValueOf(s)
    decreases |s|
  {
    if k < |s| {
      PrefixValue(s[..|s| - 1], k);
      assert s[..|s| - 1][..k] == s[..k];
    } else {
      assert s[..k] == s;
    }
  }

  method ParseU64(s: seq<byte>) returns (r: Option<nat>)
    ensures r == ParsedU64(s)
  {
    var d := if s != [] && s[0] == 0x2B then s[1..] else s;
    if d == [] {
      return None;
    }
    var n := 0;
    assert d[..0] == [];
    for k := 0 to |d|
      invariant AllDigits(d[..k]) && n == ValueOf(d[..k]) && n < U64
    {
      if !IsDigit(d[k]) {
        return None;
      }
      assert d[..k + 1][..k] == d[..k] && d[..k + 1][k] == d[k];
      n := 10 * n + (d[k] - 0x30);
      if n >= U64 {
        if AllDigits(d) { PrefixValue(d, k + 1); }
        return None;
      }
    }
    assert d[..|d|] == d;
    r := Some(n);
  }

  // ---- Months ----

  predicate ValidMonth(m: text)
  {
    && |m| == 7 && (forall k :: 0 <= k < 4 ==> 0x30 <= m[k] <= 0x39) && m[4] == 0x2D
    && ((m[5] == 0x30 && 0x31 <= m[6] <= 0x39) || (m[5] == 0x31 && 0x30 <= m[6] <= 0x32))
  }

  /** The month of a Unix time, with the last four digits of its year. */
  function FormatMonth(ts: nat): (m: text)
  {
    var t := Calendar.YmdFromUnix(ts);
    YmdMonth(ts);
    YearMonth(t.year, t.month)
  }

  function YearMonth(year: nat, month: nat): (m: text)
    requires month <= 12
    ensures |m| == 7
  {
    [0x30 + year / 1000 % 10, 0x30 + year / 100 % 10, 0x30 + year / 10 % 10, 0x30 + year % 10,
     0x2D, 0x30 + month / 10, 0x30 + month % 10]
  }

  lemma YmdMonth(ts: nat)
    ensures 1 <= Calendar.YmdFromUnix(ts).month <= 12
  {
    Calendar.CivilIsDate(ts / 86400);
  }

  /** Every month the program writes is one it accepts. */
  lemma FormattedMonthIsValid(ts: nat)
    ensures ValidMonth(FormatMonth(ts))
  {
    YmdMonth(ts);
  }

  lemma TenSplit(y: nat)
    ensures y == 10 * (y / 10) + y % 10 && y % 10 < 10
  {
  }

  lemma LowFour(y: nat, s: nat, d: nat)
    requires y == 10000 * s + d && d < 10000
    ensures y % 10000 == d
  {
  }

  lemma FourDigits(y: nat, p: nat, q: nat, r: nat)
    requires p == y / 10 && q == p / 10 && r == q / 10
    ensures 1000 * (r % 10) + 100 * (q % 10) + 10 * (p % 10) + y % 10 == y % 10000
  {
    TenSplit(y);
    TenSplit(p);
    TenSplit(q);
    TenSplit(r);
    LowFour(y, r / 10, 1000 * (r % 10) + 100 * (q % 10) + 10 * (p % 10) + y % 10);
  }

  lemma Hundreds(y: nat)
    ensures y / 100 == y / 10 / 10
  {
  }

  lemma Thousands(y: nat)
    ensures y / 1000 == y / 100 / 10
  {
  }

  lemma MonthText(m: text, y: nat, mo: nat)
    requires mo <= 12 && m == YearMonth(y, mo)
    ensures 1000 * (m[0] - 0x30) + 100 * (m[1] - 0x30) + 10 * (m[2] - 0x30) + (m[3] - 0x30) == y % 10000
    ensures 10 * (m[5] - 0x30) + (m[6] - 0x30) == mo
  {
    var p, q, r := y / 10, y / 10 / 10, y / 10 / 10 / 10;
    FourDigits(y, p, q, r);
    Hundreds(y);
    Thousands(y);
    assert m[0] - 0x30 == r % 10 && m[1] - 0x30 == q % 10 && m[2] - 0x30 == p % 10;
  }

  /** The digits written are those of the year, of which four are kept, and of the month. */
  lemma FormattedMonthReads(ts: nat)
    ensures
      var m, t := FormatMonth(ts), Calendar.YmdFromUnix(ts);
      && 1000 * (m[0] - 0x30) + 100 * (m[1] - 0x30) + 10 * (m[2] - 0x30) + (m[3] - 0x30) == t.year % 10000
      && 10 * (m[5] - 0x30) + (m[6] - 0x30) == t.month
  {
    YmdMonth(ts);
    MonthText(FormatMonth(ts), Calendar.YmdFromUnix(ts).year, Calendar.YmdFromUnix(ts).month);
  }

  // ---- The file ----

  datatype Counters = Counters(month: text, tx: nat, rx: nat)

  predicate CountersOk(c: Counters)
  {
    ValidMonth(c.month) && c.tx < U64 && c.rx < U64
  }

  /** The names of the file's fields. */
  datatype Names = Names(month: text, tx: text, rx: text)

  const NAMES: Names := Names(
    [0x6D, 0x6F, 0x6E, 0x74, 0x68],
    [0x74, 0x78, 0x5F, 0x62, 0x79, 0x74, 0x65, 0x73],
    [0x72, 0x78, 0x5F, 0x62, 0x79, 0x74, 0x65, 0x73])

  predicate NamesOk(n: Names)
  {
    && IsPlain(n.month) && IsPlain(n.tx) && IsPlain(n.rx)
    && n.month != n.tx && n.month != n.rx && n.tx != n.rx
  }

  lemma NamesAreOk()
    ensures NamesOk(NAMES)
  {
    assert NAMES.month[0] == 0x6D && NAMES.tx[0] == 0x74 && NAMES.rx[0] == 0x72;
  }

  /** `{"month":"...","tx_bytes":N,"rx_bytes":M}` */
  function CounterText(n: Names, c: Counters): seq<byte>
  {
    [OPEN_BRACE] + KeyText(n.month) + ([QUOTE] + EncodeAll(c.month) + [QUOTE]) + [COMMA] + KeyText(n.tx)
      + Decimal(c.tx) + [COMMA] + KeyText(n.rx) + Decimal(c.rx) + [CLOSE_BRACE]
  }

  function Whole(n: nat): Json
  {
    Num(Number(false, Decimal(n), Tail(None, None)))
  }

  lemma WholeText(n: nat)
    ensures Print(Whole(n)) == Decimal(n) && JsonOk(Whole(n), 1)
  {
    DecimalValue(n);
    assert Decimal(n) + ([] + []) == Decimal(n);
  }

  function RxMember(n: Names, c: Counters): Entries
  {
    Member(n.rx, [], Whole(c.rx), [], End)
  }

  function TxMember(n: Names, c: Counters): Entries
  {
    Member(n.tx, [], Whole(c.tx), [], RxMember(n, c))
  }

  function CounterTree(n: Names, c: Counters): Json
  {
    Node(true, [], Member(n.month, [], Text(c.month), [], TxMember(n, c)))
  }

  lemma MonthIsPlain(m: text)
    requires ValidMonth(m)
    ensures IsPlain(m) && |EncodeAll(m)| == 7
  {
    EncodeAscii(m);
  }

  lemma NumbersText(n: Names, c: Counters)
    requires NamesOk(n)
    ensures Behind(TxMember(n, c)) ==
      [COMMA] + ((KeyText(n.tx) + Decimal(c.tx)) + ([COMMA] + ((KeyText(n.rx) + Decimal(c.rx)) + [CLOSE_BRACE])))
  {
    PlainMemberText(n.tx, Whole(c.tx), RxMember(n, c));
    PlainMemberText(n.rx, Whole(c.rx), End);
    WholeText(c.tx);
    WholeText(c.rx);
    assert [COMMA] + [] == [COMMA];
  }

  lemma CounterTreeText(n: Names, c: Counters)
    requires NamesOk(n) && ValidMonth(c.month)
    ensures Print(CounterTree(n, c)) == CounterText(n, c)
  {
    var month := [QUOTE] + EncodeAll(c.month) + [QUOTE];
    MonthIsPlain(c.month);
    PlainLiteral(c.month);
    PlainMemberText(n.month, Text(c.month), TxMember(n, c));
    NumbersText(n, c);
    CounterParts(KeyText(n.month), month, KeyText(n.tx), Decimal(c.tx), KeyText(n.rx), Decimal(c.rx));
  }

  lemma CounterParts(a: seq<byte>, m: seq<byte>, t: seq<byte>, x: seq<byte>, r: seq<byte>, y: seq<byte>)
    ensures [OPEN_BRACE] + [] + ((a + m) + ([COMMA] + ((t + x) + ([COMMA] + ((r + y) + [CLOSE_BRACE]))))) ==
      [OPEN_BRACE] + a + m + [COMMA] + t + x + [COMMA] + r + y + [CLOSE_BRACE]
  {
    var tail := [COMMA] + ((r + y) + [CLOSE_BRACE]);
    Appended([OPEN_BRACE] + a + m + [COMMA] + t + x, r, y, [CLOSE_BRACE]);
    Appended([OPEN_BRACE] + a + m, t, x, tail);
    Assoc([OPEN_BRACE] + a, m, [COMMA] + ((t + x) + tail));
    Assoc([OPEN_BRACE], a, m + ([COMMA] + ((t + x) + tail)));
    Assoc(a, m, [COMMA] + ((t + x) + tail));
    assert [OPEN_BRACE] + [] == [OPEN_BRACE];
  }

  lemma CounterTreeOk(n: Names, c: Counters)
    requires NamesOk(n)
    ensures IsObject(CounterTree(n, c))
  {
    WholeText(c.tx);
    WholeText(c.rx);
    TextText(c.month);
    MemberOk(n.rx, [], Whole(c.rx), [], End, {n.month} + {n.tx});
    MemberOk(n.tx, [], Whole(c.tx), [], RxMember(n, c), {n.month});
    assert {} + {n.month} == {n.month};
    MemberOk(n.month, [], Text(c.month), [], TxMember(n, c), {});
  }

  lemma CounterField(n: Names, c: Counters, key: text)
    requires NamesOk(n) && ValidMonth(c.month)
    ensures Field(CounterText(n, c), key) ==
      if key == n.month then Some(Quoted(EncodeAll(c.month)))
      else if key == n.tx then Some(Decimal(c.tx))
      else if key == n.rx then Some(Decimal(c.rx)) else None
  {
    CounterTreeText(n, c);
    CounterTreeOk(n, c);
    LookupMember(n.rx, [], Whole(c.rx), [], End, key);
    LookupMember(n.tx, [], Whole(c.tx), [], RxMember(n, c), key);
    LookupMember(n.month, [], Text(c.month), [], TxMember(n, c), key);
    FieldOf(CounterText(n, c), CounterTree(n, c), key);
    WholeText(c.tx);
    WholeText(c.rx);
    TextText(c.month);
  }

  /** The counters of a file, if it holds any. */
  function Loaded(n: Names, b: seq<byte>): Option<Counters>
  {
    if |b| > 1024 then None
    else
      match Field(b, n.month)
      case None => None
      case Some(m) =>
        match Decoded(m)
        case None => None
        case Some(month) =>
          if !ValidMonth(month) then None else LoadedNumbers(month, Field(b, n.tx), Field(b, n.rx))
  }

  function LoadedNumbers(month: text, tx: Option<seq<byte>>, rx: Option<seq<byte>>): Option<Counters>
  {
    if tx == None || rx == None then None
    else
      match ParsedU64(tx.value)
      case None => None
      case Some(t) =>
        match ParsedU64(rx.value)
        case None => None
        case Some(r) => Some(Counters(month, t, r))
  }

  lemma ParsesDecimal(n: nat)
    requires n < U64
    ensures ParsedU64(Decimal(n)) == Some(n)
  {
    DecimalValue(n);
    assert Decimal(n)[0] != 0x2B;
  }

  lemma {:induction false} NameLengths(n: Names)
    requires n == NAMES
    ensures |KeyText(n.month)| == 8 && |KeyText(n.tx)| == 11 && |KeyText(n.rx)| == 11
  {
    NamesAreOk();
    EncodeAscii(n.month);
    EncodeAscii(n.tx);
    EncodeAscii(n.rx);
  }

  /** The text fits the program's 96 bytes: it is never longer than 83. */
  lemma CounterTextFits(n: Names, c: Counters)
    requires n == NAMES && CountersOk(c)
    ensures |CounterText(n, c)| <= 83
  {
    NameLengths(n);
    MonthIsPlain(c.month);
    DecimalFits(c.tx);
    DecimalFits(c.rx);
  }

  lemma ShortTextLoads(n: Names, c: Counters)
    requires NamesOk(n) && CountersOk(c) && |CounterText(n, c)| <= 1024
    ensures Loaded(n, CounterText(n, c)) == Some(c)
  {
    CounterField(n, c, n.month);
    CounterField(n, c, n.tx);
    CounterField(n, c, n.rx);
    StringRoundTrip(c.month);
    ParsesDecimal(c.tx);
    ParsesDecimal(c.rx);
  }

  /** What is written is read back: any valid month, and any two 64-bit counts. */
  lemma CountersRoundTrip(n: Names, c: Counters)
    requires n == NAMES && CountersOk(c)
    ensures Loaded(n, CounterText(n, c)) == Some(c)
  {
    NamesAreOk();
    CounterTextFits(n, c);
    ShortTextLoads(n, c);
  }

  // ---- The programs ----

  method Write(buf: array<byte>, pos: nat, s: seq<byte>) returns (end: nat)
    requires pos + |s| <= buf.Length
    modifies buf
    ensures end == pos + |s| && buf[..end] == old(buf[..pos]) + s
  {
    forall k | 0 <= k < |s| {
      buf[pos + k] := s[k];
    }
    end := pos + |s|;
  }

  /** Write the counters into the buffer; how many bytes that takes. */
  method FormatNetstatic(buf: array<byte>, n: Names, c: Counters) returns (end: nat)
    requires buf.Length >= 96 && n == NAMES && CountersOk(c)
    modifies buf
    ensures end <= 83 && buf[..end] == CounterText(n, c)
  {
    CounterTextFits(n, c);
    var open, month := [OPEN_BRACE] + KeyText(n.month), [QUOTE] + EncodeAll(c.month) + [QUOTE];
    end := WriteParts(buf, open, month, KeyText(n.tx), KeyText(n.rx), c);
  }

  method WriteParts(buf: array<byte>, open: seq<byte>, month: seq<byte>, tx: seq<byte>, rx: seq<byte>, c: Counters)
    returns (end: nat)
    requires |open| + |month| + 1 + |tx| + |Decimal(c.tx)| + 1 + |rx| + |Decimal(c.rx)| + 1 <= buf.Length
    modifies buf
    ensures end <= buf.Length
    ensures buf[..end] == open + month + [COMMA] + tx + Decimal(c.tx) + [COMMA] + rx + Decimal(c.rx) + [CLOSE_BRACE]
    ensures end == |open| + |month| + 1 + |tx| + |Decimal(c.tx)| + 1 + |rx| + |Decimal(c.rx)| + 1
  {
    end := Write(buf, 0, open);
    assert buf[..end] == open;
    end := Write(buf, end, month);
    end := Write(buf, end, [COMMA]);
    end := Write(buf, end, tx);
    end := WriteU64(buf, end, c.tx);
    end := Write(buf, end, [COMMA]);
    end := Write(buf, end, rx);
    end := WriteU64(buf, end, c.rx);
    end := Write(buf, end, [CLOSE_BRACE]);
  }

  /** Read the counters of a file. */
  method Load(n: Names, b: seq<byte>) returns (r: Option<Counters>)
    ensures r == Loaded(n, b)
  {
    if |b| > 1024 {
      return None;
    }
    var raw := ObjectField(b, n.month);
    if raw == None {
      return None;
    }
    var month := DecodeJsonString(raw.value);
    if month == None || !ValidMonth(month.value) {
      return None;
    }
    r := LoadNumbers(n, b, month.value);
  }

  method LoadNumbers(n: Names, b: seq<byte>, month: text) returns (r: Option<Counters>)
    ensures r == LoadedNumbers(month, Field(b, n.tx), Field(b, n.rx))
  {
    var tx := ObjectField(b, n.tx);
    if tx == None {
      return None;
    }
    var t := ParseU64(tx.value);
    if t == None {
      return None;
    }
    var rx := ObjectField(b, n.rx);
    if rx == None {
      return None;
    }
    var x := ParseU64(rx.value);
    r := if x == None then None else Some(Counters(month, t.value, x.value));
  }
}
