/**
  The configuration file's own JSON tokenizer and recursive-descent parser, proved to agree
  with the validator and the field lookup on every text the validator accepts.
 */
module Settings {
  import opened Bits
  import opened Utf8
  import opened JsonStrings
  import opened JsonNumbers
  import opened JsonGrammar
  import opened JsonScan
  import opened JsonText

  datatype Token =
    | BraceOpen | BraceClose | BracketOpen | BracketClose | Colon | Comma
    | StrToken(t: text) | NumToken(source: seq<byte>) | BoolToken(b: bool) | NullToken

  /** A parsed value; a number is kept as its source text, and a nested object is null. */
  datatype Value =
    | StrValue(t: text) | NumValue(source: seq<byte>) | BoolValue(b: bool) | NullValue | Array(items: seq<Value>)

  // ---- Tokens ----

  predicate IsAsciiWs(c: byte)
  {
    IsWs(c) || c == 0x0C
  }

  /** The number at the front, leading zeros and all. */
  function NumberAt(s: seq<byte>): (r: Scan<Token, byte>)
    ensures r.Found? ==> |r.rest| < |s|
  {
    var m := if s != [] && s[0] == MINUS then 1 else 0;
    if !StartsWithDigit(s[m..]) then NoMatch else NumberFrom(s, m + Digits(s[m..]))
  }

  /** The number whose digits before the point end at `n`. */
  function NumberFrom(s: seq<byte>, n: nat): (r: Scan<Token, byte>)
    requires 0 < n <= |s|
    ensures r.Found? ==> |r.rest| < |s|
  {
    match TakeTail(s[n..])
    case NoMatch => NoMatch
    case Found(tail, rest) => TakeTailSound(s[n..]); Found(NumToken(s[..|s| - |rest|]), rest)
  }

  function WordAt(s: seq<byte>, word: seq<byte>, token: Token): (r: Scan<Token, byte>)
    requires word != []
    ensures r.Found? ==> |r.rest| < |s|
  {
    if word <= s then Found(token, s[|word|..]) else NoMatch
  }

  function StringAt(s: seq<byte>): (r: Scan<Token, byte>)
    requires s != []
    ensures r.Found? ==> |r.rest| < |s|
  {
    match ScanLiteral(s)
    case NoMatch => NoMatch
    case Found(ps, rest) => Found(StrToken(Meaning(ps)), rest)
  }

  function Punctuation(c: byte): Option<Token>
  {
    if c == OPEN_BRACE then Some(BraceOpen)
    else if c == CLOSE_BRACE then Some(BraceClose)
    else if c == OPEN_BRACKET then Some(BracketOpen)
    else if c == CLOSE_BRACKET then Some(BracketClose)
    else if c == COLON then Some(Colon)
    else if c == COMMA then Some(Comma)
    else None
  }

  function TokenAt(s: seq<byte>): (r: Scan<Token, byte>)
    requires s != []
    ensures r.Found? ==> |r.rest| < |s|
  {
    var c := s[0];
    if Punctuation(c).Some? then Found(Punctuation(c).value, s[1..])
    else if c == QUOTE then StringAt(s)
    else if c == MINUS || IsDigit(c) then NumberAt(s)
    else if c == TRUE_WORD[0] then WordAt(s, TRUE_WORD, BoolToken(true))
    else if c == FALSE_WORD[0] then WordAt(s, FALSE_WORD, BoolToken(false))
    else if c == NULL_WORD[0] then WordAt(s, NULL_WORD, NullToken)
    else NoMatch
  }

  function Tokens(s: seq<byte>): Option<seq<Token>>
    decreases |s|
  {
    if s == [] then Some([])
    else if IsAsciiWs(s[0]) then Tokens(s[1..])
    else
      match TokenAt(s)
      case NoMatch => None
      case Found(token, rest) => Then([token], Tokens(rest))
  }

  function Then(ts: seq<Token>, more: Option<seq<Token>>): Option<seq<Token>>
  {
    match more
    case None => None
    case Some(us) => Some(ts + us)
  }

  lemma ThenThen(ts: seq<Token>, us: seq<Token>, more: Option<seq<Token>>)
    ensures Then(ts, Then(us, more)) == Then(ts + us, more)
  {
    if more.Some? { Assoc(ts, us, more.value); }
  }

  /** Where the scan finds no literal, the whole rest is none either. */
  lemma NoLiteral(s: seq<byte>)
    requires s != [] && Spelling(s).Some?
    ensures ScanLiteral(s).Found?
  {
    SpellingSound(s, Spelling(s).value);
    LiteralComplete(Spelling(s).value, []);
    assert s + [] == s;
  }

  /** The decoded string at `i` and the place behind it. */
  method TokenizeString(b: seq<byte>, i: nat) returns (r: Option<text>, end: nat)
    requires i < |b| && b[i] == QUOTE
    ensures i < end <= |b|
    ensures ScanLiteral(b[i..]) == NoMatch ==> r == None
    ensures ScanLiteral(b[i..]).Found? ==>
      r == Some(Meaning(ScanLiteral(b[i..]).value)) && b[end..] == ScanLiteral(b[i..]).rest
  {
    ghost var s := b[i..];
    end := SkipValue(b, i);
    assert b[i..end] == s[..end - i] && b[end..] == s[end - i..];
    if ScanLiteral(s).Found? {
      LiteralSound(s);
      assert b[i..end] == Literal(ScanLiteral(s).value) by { assert s == b[i..end] + b[end..]; }
      SpellingComplete(ScanLiteral(s).value);
    } else {
      assert b[i..end] == s;
      if Spelling(s).Some? { NoLiteral(s); }
    }
    r := DecodeJsonString(b[i..end]);
  }

  /** The source text of the number at `i` and the place behind it. */
  method TokenizeNumber(b: seq<byte>, i: nat) returns (r: Option<seq<byte>>, end: nat)
    requires i < |b|
    ensures i <= end <= |b|
    ensures ReadsNumber(r, end, b, i, NumberAt(b[i..]))
  {
    end := if b[i] == MINUS then i + 1 else i;
    if end == |b| || !IsDigit(b[end]) {
      NoDigits(b, i, end);
      return None, end;
    }
    var k := SkipDigits(b, end);
    AfterDigits(b, i, end, k);
    r, end := NumberEnd(b, i, k);
  }

  /** Reading a number: `r` is its source text, and it ends where the scan stops. */
  ghost predicate ReadsNumber(r: Option<seq<byte>>, end: nat, b: seq<byte>, i: nat, scan: Scan<Token, byte>)
    requires end <= |b|
  {
    match scan
    case NoMatch => r == None
    case Found(token, rest) => r.Some? && token == NumToken(r.value) && b[end..] == rest && i < end
  }

  lemma NoDigits(b: seq<byte>, i: nat, k: nat)
    requires i < |b| && k == (if b[i] == MINUS then i + 1 else i) && (k == |b| || !IsDigit(b[k]))
    ensures NumberAt(b[i..]) == NoMatch
  {
    assert b[i..][k - i..] == b[k..];
  }

  lemma AfterDigitsOf(s: seq<byte>, m: nat)
    requires s != [] && m == (if s[0] == MINUS then 1 else 0) && StartsWithDigit(s[m..])
    ensures 0 < m + Digits(s[m..]) <= |s| && NumberAt(s) == NumberFrom(s, m + Digits(s[m..]))
  {
  }

  lemma AfterDigits(b: seq<byte>, i: nat, k: nat, end: nat)
    requires i < |b| && k == (if b[i] == MINUS then i + 1 else i) && k < |b| && IsDigit(b[k])
    requires end == k + Digits(b[k..])
    ensures i < end <= |b| && NumberAt(b[i..]) == NumberFrom(b[i..], end - i)
  {
    assert b[i..][k - i..] == b[k..];
    AfterDigitsOf(b[i..], k - i);
  }

  method NumberEnd(b: seq<byte>, i: nat, k: nat) returns (r: Option<seq<byte>>, end: nat)
    requires i < k <= |b|
    ensures i <= end <= |b|
    ensures ReadsNumber(r, end, b, i, NumberFrom(b[i..], k - i))
  {
    var e := SkipTail(b, k);
    if e == None {
      assert b[i..][k - i..] == b[k..];
      return None, k;
    }
    end := e.value;
    r := Some(b[i..end]);
    NumberSource(b, i, k, end);
  }

  lemma NumberFromIs(source: seq<byte>, rest: seq<byte>, n: nat, t: Tail)
    requires 0 < n <= |source| && TakeTail((source + rest)[n..]) == Found(t, rest)
    ensures NumberFrom(source + rest, n) == Found(NumToken(source), rest)
  {
    var s := source + rest;
    assert s[..|s| - |rest|] == source;
  }

  lemma TailEnds(b: seq<byte>, k: nat, end: nat)
    requires k <= |b| && end <= |b| && TakeTail(b[k..]).Found? && TakeTail(b[k..]).rest == b[end..]
    ensures k <= end
  {
    TakeTailSound(b[k..]);
    assert |b[end..]| <= |b[k..]|;
  }

  lemma SplitAt(b: seq<byte>, i: nat, k: nat, end: nat)
    requires i <= k <= end <= |b|
    ensures b[i..] == b[i..end] + b[end..] && (b[i..end] + b[end..])[k - i..] == b[k..]
  {
  }

  lemma NumberSource(b: seq<byte>, i: nat, k: nat, end: nat)
    requires i < k <= |b| && end <= |b|
    requires TakeTail(b[k..]).Found? && TakeTail(b[k..]).rest == b[end..]
    ensures k <= end && NumberFrom(b[i..], k - i) == Found(NumToken(b[i..end]), b[end..])
  {
    TailEnds(b, k, end);
    SplitAt(b, i, k, end);
    NumberFromIs(b[i..end], b[end..], k - i, TakeTail(b[k..]).value);
  }

  /** The word at `i`. */
  method TokenizeWord(b: seq<byte>, i: nat, word: seq<byte>, token: Token) returns (ok: bool)
    requires i < |b| && word != []
    ensures match WordAt(b[i..], word, token)
      case NoMatch => !ok
      case Found(_, rest) => ok && i + |word| <= |b| && b[i + |word|..] == rest
  {
    ok := i + |word| <= |b| && b[i..i + |word|] == word;
    ghost var s := b[i..];
    assert ok ==> s[..|word|] == word && s[|word|..] == b[i + |word|..];
    assert word <= s ==> b[i..i + |word|] == s[..|word|];
  }

  /** The token at `i` and the place behind it. */
  method NextToken(b: seq<byte>, i: nat) returns (r: Option<Token>, end: nat)
    requires i < |b|
    ensures end <= |b|
    ensures match TokenAt(b[i..])
      case NoMatch => r == None
      case Found(token, rest) => r == Some(token) && b[end..] == rest && i < end
  {
    var c := b[i];
    end := i;
    assert b[i..][1..] == b[i + 1..];
    if c == OPEN_BRACE {
      return Some(BraceOpen), i + 1;
    } else if c == CLOSE_BRACE {
      return Some(BraceClose), i + 1;
    } else if c == OPEN_BRACKET {
      return Some(BracketOpen), i + 1;
    } else if c == CLOSE_BRACKET {
      return Some(BracketClose), i + 1;
    } else if c == COLON {
      return Some(Colon), i + 1;
    } else if c == COMMA {
      return Some(Comma), i + 1;
    } else if c == QUOTE {
      var t;
      t, end := TokenizeString(b, i);
      r := if t == None then None else Some(StrToken(t.value));
    } else if c == MINUS || IsDigit(c) {
      var n;
      n, end := TokenizeNumber(b, i);
      r := if n == None then None else Some(NumToken(n.value));
    } else {
      r, end := NextWord(b, i);
    }
  }

  method NextWord(b: seq<byte>, i: nat) returns (r: Option<Token>, end: nat)
    requires i < |b| && Punctuation(b[i]) == None && b[i] != QUOTE && b[i] != MINUS && !IsDigit(b[i])
    ensures end <= |b|
    ensures match TokenAt(b[i..])
      case NoMatch => r == None
      case Found(token, rest) => r == Some(token) && b[end..] == rest && i < end
  {
    var c, ok := b[i], false;
    if c == TRUE_WORD[0] {
      ok := TokenizeWord(b, i, TRUE_WORD, BoolToken(true));
      r, end := Some(BoolToken(true)), i + 4;
    } else if c == FALSE_WORD[0] {
      ok := TokenizeWord(b, i, FALSE_WORD, BoolToken(false));
      r, end := Some(BoolToken(false)), i + 5;
    } else if c == NULL_WORD[0] {
      ok := TokenizeWord(b, i, NULL_WORD, NullToken);
      r, end := Some(NullToken), i + 4;
    }
    if !ok {
      r, end := None, i;
    }
  }

  /** Cut a text into tokens. */
  method Tokenize(b: seq<byte>) returns (r: Option<seq<Token>>)
    ensures r == Tokens(b)
  {
    var tokens, pos := [], 0;
    assert b[0..] == b;
    assert Tokens(b).Some? ==> [] + Tokens(b).value == Tokens(b).value;
    while pos < |b|
      invariant pos <= |b|
      invariant Tokens(b) == Then(tokens, Tokens(b[pos..]))
    {
      assert b[pos..][1..] == b[pos + 1..];
      if IsAsciiWs(b[pos]) {
        pos := pos + 1;
      } else {
        var token, end := NextToken(b, pos);
        if token == None {
          return None;
        }
        ThenThen(tokens, [token.value], Tokens(b[end..]));
        tokens, pos := tokens + [token.value], end;
      }
    }
    assert tokens + [] == tokens;
    r := Some(tokens);
  }

  // ---- The parser ----

  function ParsedValue(ts: seq<Token>): (r: Scan<Value, Token>)
    ensures r.Found? ==> |r.rest| < |ts|
    decreases |ts|, 0
  {
    if ts == [] then NoMatch
    else
      match ts[0]
      case StrToken(t) => Found(StrValue(t), ts[1..])
      case NumToken(n) => Found(NumValue(n), ts[1..])
      case BoolToken(b) => Found(BoolValue(b), ts[1..])
      case NullToken => Found(NullValue, ts[1..])
      case BraceOpen =>
        (match ParsedObject(ts[1..])
         case NoMatch => NoMatch
         case Found(_, rest) => Found(NullValue, rest))
      case BracketOpen =>
        (match ParsedArray(ts[1..])
         case NoMatch => NoMatch
         case Found(items, rest) => Found(Array(items), rest))
      case _ => NoMatch
  }

  /** The members of an object, after its opening brace. */
  function ParsedObject(ts: seq<Token>): (r: Scan<map<text, Value>, Token>)
    ensures r.Found? ==> |r.rest| < |ts|
    decreases |ts|, 2
  {
    if ts != [] && ts[0] == BraceClose then Found(map[], ts[1..]) else ParsedMembers(ts, map[])
  }

  function ParsedMembers(ts: seq<Token>, m: map<text, Value>): (r: Scan<map<text, Value>, Token>)
    ensures r.Found? ==> |r.rest| < |ts|
    decreases |ts|, 1
  {
    if |ts| < 2 || !ts[0].StrToken? || ts[1] != Colon then NoMatch
    else
      match ParsedValue(ts[2..])
      case NoMatch => NoMatch
      case Found(v, us) =>
        if us == [] then NoMatch
        else if us[0] == Comma then ParsedMembers(us[1..], m[ts[0].t := v])
        else if us[0] == BraceClose then Found(m[ts[0].t := v], us[1..])
        else NoMatch
  }

  /** The items of an array, after its opening bracket. */
  function ParsedArray(ts: seq<Token>): (r: Scan<seq<Value>, Token>)
    ensures r.Found? ==> |r.rest| < |ts|
    decreases |ts|, 2
  {
    if ts != [] && ts[0] == BracketClose then Found([], ts[1..]) else ParsedItems(ts, [])
  }

  function ParsedItems(ts: seq<Token>, items: seq<Value>): (r: Scan<seq<Value>, Token>)
    ensures r.Found? ==> |r.rest| < |ts|
    decreases |ts|, 1
  {
    match ParsedValue(ts)
    case NoMatch => NoMatch
    case Found(v, us) =>
      if us == [] then NoMatch
      else if us[0] == Comma then ParsedItems(us[1..], items + [v])
      else if us[0] == BracketClose then Found(items + [v], us[1..])
      else NoMatch
  }

  /** What the token behind a member decides. */
  lemma MemberEnds(ts: seq<Token>, m: map<text, Value>, v: Value, us: seq<Token>)
    requires |ts| >= 2 && ts[0].StrToken? && ts[1] == Colon && ParsedValue(ts[2..]) == Found(v, us)
    ensures ParsedMembers(ts, m) ==
      if us != [] && us[0] == Comma then ParsedMembers(us[1..], m[ts[0].t := v])
      else if us != [] && us[0] == BraceClose then Found(m[ts[0].t := v], us[1..])
      else NoMatch
  {
  }

  /** What the token behind an item decides. */
  lemma ItemEnds(ts: seq<Token>, items: seq<Value>, v: Value, us: seq<Token>)
    requires ParsedValue(ts) == Found(v, us)
    ensures ParsedItems(ts, items) ==
      if us != [] && us[0] == Comma then ParsedItems(us[1..], items + [v])
      else if us != [] && us[0] == BracketClose then Found(items + [v], us[1..])
      else NoMatch
  {
  }

  /** What one item of an array leads to. */
  datatype ItemStep = MoreItems(items: seq<Value>) | ArrayEnds(items: seq<Value>) | BadItem

  /** What one member of an object leads to. */
  datatype MemberStep = MoreMembers(m: map<text, Value>) | ObjectEnds(m: map<text, Value>) | BadMember

  class Parser {
    const tokens: seq<Token>
    var pos: nat

    constructor (tokens: seq<Token>)
      ensures this.tokens == tokens && pos == 0
    {
      this.tokens := tokens;
      pos := 0;
    }

    ghost predicate Valid()
      reads this
    {
      pos <= |tokens|
    }

    /** What is still to be parsed. */
    ghost function Ahead(): seq<Token>
      requires Valid()
      reads this
    {
      tokens[pos..]
    }

    method Peek() returns (t: Option<Token>)
      requires Valid()
      ensures t == if Ahead() == [] then None else Some(Ahead()[0])
    {
      t := if pos < |tokens| then Some(tokens[pos]) else None;
    }

    method Advance() returns (t: Option<Token>)
      requires Valid()
      modifies this`pos
      ensures Valid()
      ensures old(Ahead()) == [] ==> t == None && Ahead() == []
      ensures old(Ahead()) != [] ==> t == Some(old(Ahead())[0]) && Ahead() == old(Ahead())[1..]
    {
      if pos == |tokens| {
        return None;
      }
      t := Some(tokens[pos]);
      pos := pos + 1;
    }

    /** Consume the token that must come next. */
    method Expect(expected: Token) returns (ok: bool)
      requires Valid()
      modifies this`pos
      ensures Valid()
      ensures ok <==> old(Ahead()) != [] && old(Ahead())[0] == expected
      ensures ok ==> Ahead() == old(Ahead())[1..]
    {
      var t := Advance();
      ok := t == Some(expected);
    }

    method ParseValue() returns (r: Option<Value>)
      requires Valid()
      modifies this`pos
      ensures Valid()
      ensures match ParsedValue(old(Ahead()))
        case NoMatch => r == None
        case Found(v, rest) => r == Some(v) && Ahead() == rest
      decreases |tokens| - pos, 1
    {
      var t := Peek();
      if t == None {
        return None;
      }
      match t.value
      case StrToken(s) => pos := pos + 1; r := Some(StrValue(s));
      case NumToken(n) => pos := pos + 1; r := Some(NumValue(n));
      case BoolToken(b) => pos := pos + 1; r := Some(BoolValue(b));
      case NullToken => pos := pos + 1; r := Some(NullValue);
      case BraceOpen =>
        var m := ParseObject();
        r := if m == None then None else Some(NullValue);
      case BracketOpen =>
        var a := ParseArray();
        r := if a == None then None else Some(Array(a.value));
      case _ => r := None;
    }

    method ParseObject() returns (r: Option<map<text, Value>>)
      requires Valid()
      modifies this`pos
      ensures Valid()
      ensures old(Ahead()) == [] || old(Ahead())[0] != BraceOpen ==> r == None
      ensures old(Ahead()) != [] && old(Ahead())[0] == BraceOpen ==>
        match ParsedObject(old(Ahead())[1..])
        case NoMatch => r == None
        case Found(m, rest) => r == Some(m) && Ahead() == rest
      decreases |tokens| - pos, 0
    {
      var m := map[];
      var ok := Expect(BraceOpen);
      if !ok {
        return None;
      }
      var t := Peek();
      if t == Some(BraceClose) {
        pos := pos + 1;
        return Some(m);
      }
      ghost var goal := ParsedMembers(Ahead(), m);
      while true
        invariant old(pos) < pos <= |tokens|
        invariant ParsedMembers(Ahead(), m) == goal
        decreases |tokens| - pos
      {
        var step := ParseMember(m);
        match step
        case MoreMembers(more) => m := more;
        case ObjectEnds(all) => return Some(all);
        case BadMember => return None;
      }
    }

    /** One member, and the comma or brace behind it. */
    method ParseMember(m: map<text, Value>) returns (r: MemberStep)
      requires Valid()
      modifies this`pos
      ensures Valid()
      ensures match r
        case MoreMembers(more) => pos > old(pos) && ParsedMembers(old(Ahead()), m) == ParsedMembers(Ahead(), more)
        case ObjectEnds(all) => ParsedMembers(old(Ahead()), m) == Found(all, Ahead())
        case BadMember => ParsedMembers(old(Ahead()), m) == NoMatch
      decreases |tokens| - pos, 2
    {
      ghost var ts := Ahead();
      var key := Advance();
      if key == None || !key.value.StrToken? {
        return BadMember;
      }
      var ok := Expect(Colon);
      if !ok {
        return BadMember;
      }
      assert Ahead() == ts[2..];
      var v := ParseValue();
      if v == None {
        return BadMember;
      }
      MemberEnds(ts, m, v.value, Ahead());
      r := FinishMember(m[key.value.t := v.value]);
    }

    /** The comma or brace behind a member. */
    method FinishMember(m: map<text, Value>) returns (r: MemberStep)
      requires Valid()
      modifies this`pos
      ensures Valid()
      ensures match r
        case MoreMembers(more) =>
          old(Ahead()) != [] && old(Ahead())[0] == Comma && more == m && pos > old(pos) && Ahead() == old(Ahead())[1..]
        case ObjectEnds(all) =>
          old(Ahead()) != [] && old(Ahead())[0] == BraceClose && all == m && Ahead() == old(Ahead())[1..]
        case BadMember => old(Ahead()) == [] || (old(Ahead())[0] != Comma && old(Ahead())[0] != BraceClose)
    {
      var t := Peek();
      if t == Some(Comma) {
        pos := pos + 1;
        r := MoreMembers(m);
      } else if t == Some(BraceClose) {
        pos := pos + 1;
        r := ObjectEnds(m);
      } else {
        r := BadMember;
      }
    }

    method ParseArray() returns (r: Option<seq<Value>>)
      requires Valid()
      modifies this`pos
      ensures Valid()
      ensures old(Ahead()) == [] || old(Ahead())[0] != BracketOpen ==> r == None
      ensures old(Ahead()) != [] && old(Ahead())[0] == BracketOpen ==>
        match ParsedArray(old(Ahead())[1..])
        case NoMatch => r == None
        case Found(items, rest) => r == Some(items) && Ahead() == rest
      decreases |tokens| - pos, 0
    {
      var items := [];
      var ok := Expect(BracketOpen);
      if !ok {
        return None;
      }
      var t := Peek();
      if t == Some(BracketClose) {
        pos := pos + 1;
        return Some(items);
      }
      ghost var goal := ParsedItems(Ahead(), items);
      while true
        invariant old(pos) < pos <= |tokens|
        invariant ParsedItems(Ahead(), items) == goal
        decreases |tokens| - pos
      {
        var step := ParseItem(items);
        match step
        case MoreItems(more) => items := more;
        case ArrayEnds(all) => return Some(all);
        case BadItem => return None;
      }
    }

    /** One item, and the comma or bracket behind it. */
    method ParseItem(items: seq<Value>) returns (r: ItemStep)
      requires Valid()
      modifies this`pos
      ensures Valid()
      ensures match r
        case MoreItems(more) => pos > old(pos) && ParsedItems(old(Ahead()), items) == ParsedItems(Ahead(), more)
        case ArrayEnds(all) => ParsedItems(old(Ahead()), items) == Found(all, Ahead())
        case BadItem => ParsedItems(old(Ahead()), items) == NoMatch
      decreases |tokens| - pos, 2
    {
      ghost var ts := Ahead();
      var v := ParseValue();
      if v == None {
        return BadItem;
      }
      ItemEnds(ts, items, v.value, Ahead());
      r := FinishItem(items + [v.value]);
    }

    /** The comma or bracket behind an item. */
    method FinishItem(items: seq<Value>) returns (r: ItemStep)
      requires Valid()
      modifies this`pos
      ensures Valid()
      ensures match r
        case MoreItems(more) =>
          && old(Ahead()) != [] && old(Ahead())[0] == Comma && more == items
          && pos > old(pos) && Ahead() == old(Ahead())[1..]
        case ArrayEnds(all) =>
          old(Ahead()) != [] && old(Ahead())[0] == BracketClose && all == items && Ahead() == old(Ahead())[1..]
        case BadItem => old(Ahead()) == [] || (old(Ahead())[0] != Comma && old(Ahead())[0] != BracketClose)
    {
      var t := Peek();
      if t == Some(Comma) {
        pos := pos + 1;
        r := MoreItems(items);
      } else if t == Some(BracketClose) {
        pos := pos + 1;
        r := ArrayEnds(items);
      } else {
        r := BadItem;
      }
    }
  }
}
