/** JSON numbers (section 6 of RFC 8259) and the scan that recognises them. */
module JsonNumbers {
  import opened Bits
  import opened Utf8
  import opened JsonStrings

  predicate IsDigit(c: byte)
  {
    0x30 <= c <= 0x39
  }

  predicate AllDigits(s: seq<byte>)
  {
    forall k :: 0 <= k < |s| ==> IsDigit(s[k])
  }

  predicate StartsWithDigit(s: seq<byte>)
  {
    s != [] && IsDigit(s[0])
  }

  datatype Exponent = Exponent(mark: byte, sign: seq<byte>, digits: seq<byte>)

  datatype Tail = Tail(fraction: Option<seq<byte>>, exponent: Option<Exponent>)

  datatype Number = Number(minus: bool, whole: seq<byte>, tail: Tail)

  const MINUS: byte := 0x2D
  const POINT: byte := 0x2E

  predicate IsMark(c: byte)
  {
    c == 0x65 || c == 0x45
  }

  predicate IsSign(c: byte)
  {
    c == 0x2B || c == MINUS
  }

  /** The grammar: no leading zeros, and no empty run of digits. */
  predicate NumberOk(n: Number)
  {
    WholeOk(n.whole) && TailOk(n.tail)
  }

  predicate WholeOk(w: seq<byte>)
  {
    AllDigits(w) && w != [] && (w[0] == 0x30 ==> |w| == 1)
  }

  predicate TailOk(t: Tail)
  {
    && (t.fraction.Some? ==> AllDigits(t.fraction.value) && t.fraction.value != [])
    && (t.exponent.Some? ==> ExponentOk(t.exponent.value))
  }

  predicate ExponentOk(e: Exponent)
  {
    && IsMark(e.mark) && |e.sign| <= 1 && (e.sign != [] ==> IsSign(e.sign[0]))
    && AllDigits(e.digits) && e.digits != []
  }

  function FractionText(f: Option<seq<byte>>): seq<byte>
  {
    match f
    case None => []
    case Some(d) => [POINT] + d
  }

  function ExponentText(e: Option<Exponent>): seq<byte>
  {
    match e
    case None => []
    case Some(x) => [x.mark] + x.sign + x.digits
  }

  function TailText(t: Tail): seq<byte>
  {
    FractionText(t.fraction) + ExponentText(t.exponent)
  }

  function UnsignedText(n: Number): seq<byte>
  {
    n.whole + TailText(n.tail)
  }

  function NumberText(n: Number): seq<byte>
  {
    if n.minus then [MINUS] + UnsignedText(n) else UnsignedText(n)
  }

  // ---- The scan ----

  /** How many digits there are at the front. */
  function Digits(s: seq<byte>): (n: nat)
    ensures n <= |s|
  {
    if StartsWithDigit(s) then 1 + Digits(s[1..]) else 0
  }

  lemma {:induction false} DigitsSound(s: seq<byte>)
    ensures AllDigits(s[..Digits(s)]) && !StartsWithDigit(s[Digits(s)..])
  {
    if StartsWithDigit(s) {
      DigitsSound(s[1..]);
      assert s[Digits(s)..] == s[1..][Digits(s[1..])..];
      assert s[..Digits(s)] == [s[0]] + s[1..][..Digits(s[1..])];
    }
  }

  lemma {:induction false} DigitsComplete(d: seq<byte>, rest: seq<byte>)
    requires AllDigits(d) && !StartsWithDigit(rest)
    ensures Digits(d + rest) == |d|
  {
    if d == [] {
      assert d + rest == rest;
    } else {
      assert (d + rest)[1..] == d[1..] + rest;
      DigitsComplete(d[1..], rest);
    }
  }

  function TakeWhole(s: seq<byte>): Scan<seq<byte>, byte>
  {
    if !StartsWithDigit(s) then NoMatch
    else if s[0] == 0x30 then Found(s[..1], s[1..])
    else Found(s[..Digits(s)], s[Digits(s)..])
  }

  function TakeFraction(s: seq<byte>): Scan<Option<seq<byte>>, byte>
  {
    if s == [] || s[0] != POINT then Found(None, s)
    else
      var n := Digits(s[1..]);
      if n == 0 then NoMatch else Found(Some(s[1..][..n]), s[1..][n..])
  }

  /** The optional sign of an exponent. */
  function SignOf(s: seq<byte>): seq<byte>
  {
    if s != [] && IsSign(s[0]) then s[..1] else []
  }

  /** The digits of an exponent whose mark and sign have been read. */
  function TakePower(mark: byte, sign: seq<byte>, t: seq<byte>): Scan<Option<Exponent>, byte>
  {
    var n := Digits(t);
    if n == 0 then NoMatch else Found(Some(Exponent(mark, sign, t[..n])), t[n..])
  }

  function TakeExponent(s: seq<byte>): Scan<Option<Exponent>, byte>
  {
    if s == [] || !IsMark(s[0]) then Found(None, s)
    else TakePower(s[0], SignOf(s[1..]), s[1..][|SignOf(s[1..])|..])
  }

  function TakeTail(s: seq<byte>): Scan<Tail, byte>
  {
    match TakeFraction(s)
    case NoMatch => NoMatch
    case Found(fraction, t) =>
      match TakeExponent(t)
      case NoMatch => NoMatch
      case Found(exponent, rest) => Found(Tail(fraction, exponent), rest)
  }

  function TakeUnsigned(minus: bool, s: seq<byte>): Scan<Number, byte>
  {
    match TakeWhole(s)
    case NoMatch => NoMatch
    case Found(whole, t) =>
      match TakeTail(t)
      case NoMatch => NoMatch
      case Found(tail, rest) => Found(Number(minus, whole, tail), rest)
  }

  function TakeNumber(s: seq<byte>): Scan<Number, byte>
  {
    if s != [] && s[0] == MINUS then TakeUnsigned(true, s[1..]) else TakeUnsigned(false, s)
  }

  lemma TakeFractionSound(s: seq<byte>)
    requires TakeFraction(s).Found?
    ensures var r := TakeFraction(s);
      && s == FractionText(r.value) + r.rest
      && (r.value.Some? ==> AllDigits(r.value.value) && r.value.value != [])
  {
    if s != [] && s[0] == POINT { DigitsSound(s[1..]); }
  }

  lemma SignSplit(s: seq<byte>)
    ensures s == SignOf(s) + s[|SignOf(s)|..]
    ensures |SignOf(s)| <= 1 && (SignOf(s) != [] ==> IsSign(SignOf(s)[0]))
  {
  }

  lemma TakePowerSound(mark: byte, sign: seq<byte>, t: seq<byte>)
    requires IsMark(mark) && |sign| <= 1 && (sign != [] ==> IsSign(sign[0])) && TakePower(mark, sign, t).Found?
    ensures var r := TakePower(mark, sign, t);
      [mark] + (sign + t) == ExponentText(r.value) + r.rest && r.value.Some? && ExponentOk(r.value.value)
  {
    var n := Digits(t);
    DigitsSound(t);
    assert t == t[..n] + t[n..];
    Assoc([mark] + sign, t[..n], t[n..]);
    Assoc([mark], sign, t);
  }

  lemma MarkedSound(s: seq<byte>, u: seq<byte>)
    requires s != [] && IsMark(s[0]) && u == s[1..] && TakePower(s[0], SignOf(u), u[|SignOf(u)|..]).Found?
    ensures var r := TakePower(s[0], SignOf(u), u[|SignOf(u)|..]);
      s == ExponentText(r.value) + r.rest && r.value.Some? && ExponentOk(r.value.value)
  {
    SignSplit(u);
    assert s == [s[0]] + u;
    TakePowerSound(s[0], SignOf(u), u[|SignOf(u)|..]);
  }

  lemma TakeExponentSound(s: seq<byte>)
    requires TakeExponent(s).Found?
    ensures var r := TakeExponent(s);
      s == ExponentText(r.value) + r.rest && (r.value.Some? ==> ExponentOk(r.value.value))
  {
    if s != [] && IsMark(s[0]) {
      MarkedSound(s, s[1..]);
    } else {
      assert [] + s == s;
    }
  }

  lemma TakeTailSound(s: seq<byte>)
    requires TakeTail(s).Found?
    ensures var r := TakeTail(s); TailOk(r.value) && s == TailText(r.value) + r.rest
  {
    TakeFractionSound(s);
    var f := TakeFraction(s);
    TakeExponentSound(f.rest);
    Assoc(FractionText(f.value), ExponentText(TakeExponent(f.rest).value), TakeTail(s).rest);
  }

  lemma TakeUnsignedSound(minus: bool, s: seq<byte>)
    requires TakeUnsigned(minus, s).Found?
    ensures var r := TakeUnsigned(minus, s);
      NumberOk(r.value) && r.value.minus == minus && s == UnsignedText(r.value) + r.rest
  {
    DigitsSound(s);
    var w := TakeWhole(s);
    assert WholeOk(w.value) && s == w.value + w.rest;
    TakeTailSound(w.rest);
    Assoc(w.value, TailText(TakeTail(w.rest).value), TakeTail(w.rest).rest);
  }

  lemma NegativeSound(s: seq<byte>)
    requires s != [] && s[0] == MINUS && TakeUnsigned(true, s[1..]).Found?
    ensures var r := TakeUnsigned(true, s[1..]); NumberOk(r.value) && s == NumberText(r.value) + r.rest
  {
    var r := TakeUnsigned(true, s[1..]);
    TakeUnsignedSound(true, s[1..]);
    Assoc([MINUS], UnsignedText(r.value), r.rest);
    assert s == [MINUS] + s[1..];
  }

  lemma TakeNumberSound(s: seq<byte>)
    requires TakeNumber(s).Found?
    ensures var r := TakeNumber(s); NumberOk(r.value) && s == NumberText(r.value) + r.rest
  {
    if s != [] && s[0] == MINUS {
      NegativeSound(s);
    } else {
      TakeUnsignedSound(false, s);
    }
  }

  lemma TakeFractionComplete(f: Option<seq<byte>>, rest: seq<byte>)
    requires f.Some? ==> AllDigits(f.value) && f.value != [] && !StartsWithDigit(rest)
    requires f == None && rest != [] ==> rest[0] != POINT
    ensures TakeFraction(FractionText(f) + rest) == Found(f, rest)
  {
    match f
    case None => assert [] + rest == rest;
    case Some(d) =>
      var s := FractionText(f) + rest;
      assert s[1..] == d + rest;
      DigitsComplete(d, rest);
  }

  lemma SignFirst(sign: seq<byte>, digits: seq<byte>, rest: seq<byte>)
    requires |sign| <= 1 && (sign != [] ==> IsSign(sign[0])) && digits != [] && IsDigit(digits[0])
    ensures SignOf(sign + (digits + rest)) == sign && (sign + (digits + rest))[|sign|..] == digits + rest
  {
  }

  lemma TakeExponentFrom(mark: byte, sign: seq<byte>, digits: seq<byte>, rest: seq<byte>)
    requires IsMark(mark) && digits != [] && Digits(digits + rest) == |digits|
    requires SignOf(sign + (digits + rest)) == sign && (sign + (digits + rest))[|sign|..] == digits + rest
    ensures TakeExponent([mark] + (sign + (digits + rest))) == Found(Some(Exponent(mark, sign, digits)), rest)
  {
    assert ([mark] + (sign + (digits + rest)))[1..] == sign + (digits + rest);
    assert (digits + rest)[..|digits|] == digits && (digits + rest)[|digits|..] == rest;
  }

  lemma TakeExponentComplete(e: Option<Exponent>, rest: seq<byte>)
    requires e.Some? ==> ExponentOk(e.value) && !StartsWithDigit(rest)
    requires e == None && rest != [] ==> !IsMark(rest[0])
    ensures TakeExponent(ExponentText(e) + rest) == Found(e, rest)
  {
    match e
    case None => assert [] + rest == rest;
    case Some(x) =>
      assert ExponentText(e) + rest == [x.mark] + (x.sign + (x.digits + rest));
      DigitsComplete(x.digits, rest);
      SignFirst(x.sign, x.digits, rest);
      TakeExponentFrom(x.mark, x.sign, x.digits, rest);
  }

  /** What may stand right after a number without being read as part of it. */
  predicate AfterNumber(rest: seq<byte>)
  {
    rest != [] ==> !IsDigit(rest[0]) && rest[0] != POINT && !IsMark(rest[0])
  }

  lemma TakeTailComplete(t: Tail, rest: seq<byte>)
    requires TailOk(t) && AfterNumber(rest)
    ensures TakeTail(TailText(t) + rest) == Found(t, rest)
    ensures !StartsWithDigit(TailText(t) + rest)
  {
    var e := ExponentText(t.exponent);
    Assoc(FractionText(t.fraction), e, rest);
    assert e + rest != [] ==> (e + rest)[0] == (if e != [] then e[0] else rest[0]);
    TakeFractionComplete(t.fraction, e + rest);
    TakeExponentComplete(t.exponent, rest);
  }

  lemma TakeUnsignedComplete(n: Number, rest: seq<byte>)
    requires NumberOk(n) && AfterNumber(rest)
    ensures TakeUnsigned(n.minus, UnsignedText(n) + rest) == Found(n, rest)
  {
    TakeTailComplete(n.tail, rest);
    Assoc(n.whole, TailText(n.tail), rest);
    DigitsComplete(n.whole, TailText(n.tail) + rest);
  }

  lemma TakeNumberBySign(minus: bool, body: seq<byte>)
    requires StartsWithDigit(body)
    ensures TakeNumber(if minus then [MINUS] + body else body) == TakeUnsigned(minus, body)
  {
    assert ([MINUS] + body)[1..] == body;
  }

  lemma TakeNumberComplete(n: Number, rest: seq<byte>)
    requires NumberOk(n) && AfterNumber(rest)
    ensures TakeNumber(NumberText(n) + rest) == Found(n, rest)
  {
    var body := UnsignedText(n) + rest;
    assert NumberText(n) + rest == if n.minus then [MINUS] + body else body;
    assert body[0] == n.whole[0];
    TakeNumberBySign(n.minus, body);
    TakeUnsignedComplete(n, rest);
  }

  /** The number a whole token spells. */
  function NumberOf(token: seq<byte>): Option<Number>
  {
    match TakeNumber(token)
    case NoMatch => None
    case Found(n, rest) => if rest == [] then Some(n) else None
  }

  /** Exactly the tokens of the grammar are numbers, and a token spells only one. */
  lemma NumberExact(token: seq<byte>, n: Number)
    ensures NumberOf(token) == Some(n) <==> NumberOk(n) && token == NumberText(n)
  {
    if NumberOf(token) == Some(n) {
      TakeNumberSound(token);
      assert NumberText(n) + [] == NumberText(n);
    }
    if NumberOk(n) && token == NumberText(n) {
      TakeNumberComplete(n, []);
      assert token + [] == token;
    }
  }

  /** Advance over digits. */
  method SkipDigits(s: seq<byte>, i: nat) returns (n: nat)
    requires i <= |s|
    ensures n == i + Digits(s[i..])
  {
    n := i;
    while n < |s| && IsDigit(s[n])
      invariant i <= n <= |s| && n + Digits(s[n..]) == i + Digits(s[i..])
    {
      assert s[n..][1..] == s[n + 1..];
      n := n + 1;
    }
  }

  /** Skip a fraction, if there is one. */
  method SkipFraction(s: seq<byte>, i: nat) returns (end: Option<nat>)
    requires i <= |s|
    ensures Stops(end, s, TakeFraction(s[i..]))
  {
    if i == |s| || s[i] != POINT {
      return Some(i);
    }
    assert s[i..][1..] == s[i + 1..];
    var n := SkipDigits(s, i + 1);
    assert s[i..][1..][n - i - 1..] == s[n..];
    end := if n == i + 1 then None else Some(n);
  }

  /** Skip an exponent, if there is one. */
  method SkipExponent(s: seq<byte>, i: nat) returns (end: Option<nat>)
    requires i <= |s|
    ensures Stops(end, s, TakeExponent(s[i..]))
  {
    if i == |s| || !IsMark(s[i]) {
      return Some(i);
    }
    assert s[i..][1..] == s[i + 1..];
    var k := i + 1;
    if k < |s| && IsSign(s[k]) {
      k := k + 1;
    }
    assert s[i + 1..][|SignOf(s[i + 1..])|..] == s[k..];
    var n := SkipDigits(s, k);
    assert s[k..][n - k..] == s[n..];
    end := if n == k then None else Some(n);
  }

  /** A cursor scan of `s` agrees with a scan of what lies ahead. */
  ghost predicate Stops<T>(end: Option<nat>, s: seq<byte>, r: Scan<T, byte>)
  {
    match r
    case NoMatch => end == None
    case Found(_, rest) => end.Some? && end.value <= |s| && s[end.value..] == rest
  }

  /** Skip the digits before the point. */
  method SkipWhole(s: seq<byte>, i: nat) returns (end: Option<nat>)
    requires i <= |s|
    ensures Stops(end, s, TakeWhole(s[i..]))
  {
    if i == |s| || !IsDigit(s[i]) {
      return None;
    }
    if s[i] == 0x30 {
      assert s[i..][1..] == s[i + 1..];
      return Some(i + 1);
    }
    var n := SkipDigits(s, i);
    assert s[i..][n - i..] == s[n..];
    end := Some(n);
  }

  /** Skip a fraction and an exponent. */
  method SkipTail(s: seq<byte>, i: nat) returns (end: Option<nat>)
    requires i <= |s|
    ensures Stops(end, s, TakeTail(s[i..]))
  {
    end := SkipFraction(s, i);
    if end.Some? {
      end := SkipExponent(s, end.value);
    }
  }

  /** Skip a number without its sign. */
  method SkipUnsigned(ghost minus: bool, s: seq<byte>, i: nat) returns (end: Option<nat>)
    requires i <= |s|
    ensures Stops(end, s, TakeUnsigned(minus, s[i..]))
  {
    end := SkipWhole(s, i);
    if end.Some? {
      end := SkipTail(s, end.value);
    }
  }

  /** Whether a token is a number. */
  method CheckNumber(token: seq<byte>) returns (ok: bool)
    ensures ok <==> NumberOf(token).Some?
  {
    var n := if token != [] && token[0] == MINUS then 1 else 0;
    assert token[0..] == token;
    var end := SkipUnsigned(n == 1, token, n);
    ok := end == Some(|token|);
  }

  /** The characters of a number are none that could end a token. */
  lemma NumberChars(n: Number, c: byte)
    requires NumberOk(n) && c in NumberText(n)
    ensures IsDigit(c) || c == MINUS || c == POINT || IsMark(c) || IsSign(c)
  {
    assert c == MINUS || c in n.whole || c in FractionText(n.tail.fraction) || c in ExponentText(n.tail.exponent);
  }
}
