/** JSON string literals (section 7 of RFC 8259): the escapes, their decoder and their writer. */
module JsonStrings {
  import opened Bits
  import opened Utf8

  const QUOTE: scalar := 0x22
  const BACKSLASH: scalar := 0x5C
  const LETTER_U: scalar := 0x75

  /** What a scanner finds at the front of its input. */
  datatype Scan<+T, +C> = Found(value: T, rest: seq<C>) | NoMatch

  // ---- The grammar of string contents ----

  /** One character as it may be spelt between the quotes. */
  datatype Piece =
    | Plain(c: scalar)
    | Short(letter: scalar)
    | Unicode(digits: text)
    | Surrogates(high: text, low: text)

  predicate IsHex(c: scalar)
  {
    0x30 <= c <= 0x39 || 0x41 <= c <= 0x46 || 0x61 <= c <= 0x66
  }

  function HexValue(c: scalar): (v: nat)
    requires IsHex(c)
    ensures v < 16
  {
    if c <= 0x39 then c - 0x30 else if c <= 0x46 then c - 0x41 + 10 else c - 0x61 + 10
  }

  predicate FourHex(t: text)
  {
    |t| == 4 && IsHex(t[0]) && IsHex(t[1]) && IsHex(t[2]) && IsHex(t[3])
  }

  function Hex4(t: text): (v: nat)
    requires FourHex(t)
    ensures v < 0x1_0000
  {
    HexValue(t[0]) * 4096 + HexValue(t[1]) * 256 + HexValue(t[2]) * 16 + HexValue(t[3])
  }

  predicate HighSurrogate(v: nat)
  {
    0xD800 <= v < 0xDC00
  }

  predicate LowSurrogate(v: nat)
  {
    0xDC00 <= v < 0xE000
  }

  /** What a one-letter escape stands for. */
  function ShortMeaning(letter: scalar): Option<scalar>
  {
    if letter == 0x6E then Some(0x0A)
    else if letter == 0x72 then Some(0x0D)
    else if letter == 0x74 then Some(0x09)
    else if letter == 0x62 then Some(0x08)
    else if letter == 0x66 then Some(0x0C)
    else if letter == QUOTE || letter == BACKSLASH || letter == 0x2F then Some(letter)
    else None
  }

  /** The grammar: no bare control character or quote, and surrogates only in pairs. */
  predicate PieceOk(p: Piece)
  {
    match p
    case Plain(c) => c >= 0x20 && c != QUOTE && c != BACKSLASH
    case Short(letter) => ShortMeaning(letter).Some?
    case Unicode(d) => FourHex(d) && !HighSurrogate(Hex4(d)) && !LowSurrogate(Hex4(d))
    case Surrogates(h, l) => FourHex(h) && FourHex(l) && HighSurrogate(Hex4(h)) && LowSurrogate(Hex4(l))
  }

  function PieceText(p: Piece): (t: text)
    ensures |t| >= 1
  {
    match p
    case Plain(c) => [c]
    case Short(letter) => [BACKSLASH, letter]
    case Unicode(d) => [BACKSLASH, LETTER_U] + d
    case Surrogates(h, l) => [BACKSLASH, LETTER_U] + h + [BACKSLASH, LETTER_U] + l
  }

  function PieceMeaning(p: Piece): scalar
    requires PieceOk(p)
  {
    match p
    case Plain(c) => c
    case Short(letter) => ShortMeaning(letter).value
    case Unicode(d) => Hex4(d)
    case Surrogates(h, l) => 0x1_0000 + (Hex4(h) - 0xD800) * 1024 + (Hex4(l) - 0xDC00)
  }

  predicate AllOk(ps: seq<Piece>)
  {
    ps == [] || (PieceOk(ps[0]) && AllOk(ps[1..]))
  }

  function PiecesText(ps: seq<Piece>): text
  {
    if ps == [] then [] else PieceText(ps[0]) + PiecesText(ps[1..])
  }

  function Meaning(ps: seq<Piece>): text
    requires AllOk(ps)
  {
    if ps == [] then [] else [PieceMeaning(ps[0])] + Meaning(ps[1..])
  }

  /** A string literal, quotes included, as bytes. */
  function Literal(ps: seq<Piece>): seq<byte>
  {
    [QUOTE] + EncodeAll(PiecesText(ps)) + [QUOTE]
  }

  // ---- Reading pieces ----

  function TakePiece(t: text): (r: Scan<Piece, scalar>)
    requires t != []
    ensures r.Found? ==> |r.rest| < |t|
  {
    if t[0] != BACKSLASH then
      if t[0] >= 0x20 && t[0] != QUOTE then Found(Plain(t[0]), t[1..]) else NoMatch
    else if |t| < 2 then NoMatch
    else if t[1] == LETTER_U then TakeUnicode(t[2..])
    else if ShortMeaning(t[1]).Some? then Found(Short(t[1]), t[2..])
    else NoMatch
  }

  /** The rest of an escape after backslash and `u`. */
  function TakeUnicode(t: text): (r: Scan<Piece, scalar>)
    ensures r.Found? ==> |r.rest| <= |t|
  {
    if |t| < 4 || !FourHex(t[..4]) || LowSurrogate(Hex4(t[..4])) then NoMatch
    else if !HighSurrogate(Hex4(t[..4])) then Found(Unicode(t[..4]), t[4..])
    else TakeLow(t[..4], t[4..])
  }

  /** The low surrogate that must follow a high one. */
  function TakeLow(high: text, t: text): (r: Scan<Piece, scalar>)
    ensures r.Found? ==> |r.rest| <= |t|
  {
    if |t| >= 6 && t[0] == BACKSLASH && t[1] == LETTER_U && FourHex(t[2..6]) && LowSurrogate(Hex4(t[2..6])) then
      Found(Surrogates(high, t[2..6]), t[6..])
    else NoMatch
  }

  function Pieces(t: text): Option<seq<Piece>>
    decreases |t|
  {
    if t == [] then Some([])
    else
      match TakePiece(t)
      case NoMatch => None
      case Found(p, rest) =>
        match Pieces(rest)
        case None => None
        case Some(ps) => Some([p] + ps)
  }

  lemma TakeSound(t: text)
    requires t != [] && TakePiece(t).Found?
    ensures var r := TakePiece(t); PieceOk(r.value) && t == PieceText(r.value) + r.rest
  {
    if t[0] == BACKSLASH && t[1] == LETTER_U {
      assert t == [BACKSLASH, LETTER_U] + t[2..][..4] + t[6..];
      if TakePiece(t).value.Surrogates? {
        var u := t[2..][4..];
        assert u == [BACKSLASH, LETTER_U] + u[2..6] + u[6..];
      }
    }
  }

  lemma TakeUnicodeComplete(d: text, rest: text)
    requires PieceOk(Unicode(d))
    ensures TakeUnicode(d + rest) == Found(Unicode(d), rest)
  {
    assert (d + rest)[..4] == d && (d + rest)[4..] == rest;
  }

  lemma TakeLowComplete(h: text, l: text, rest: text)
    requires FourHex(l) && LowSurrogate(Hex4(l))
    ensures TakeLow(h, [BACKSLASH, LETTER_U] + l + rest) == Found(Surrogates(h, l), rest)
  {
    var u := [BACKSLASH, LETTER_U] + l + rest;
    assert u[2..6] == l && u[6..] == rest;
  }

  lemma TakeSurrogatesComplete(h: text, l: text, rest: text)
    requires PieceOk(Surrogates(h, l))
    ensures TakeUnicode(h + ([BACKSLASH, LETTER_U] + l + rest)) == Found(Surrogates(h, l), rest)
  {
    var u := [BACKSLASH, LETTER_U] + l + rest;
    assert (h + u)[..4] == h && (h + u)[4..] == u;
    TakeLowComplete(h, l, rest);
  }

  lemma TakeShort(letter: scalar, rest: text)
    requires ShortMeaning(letter).Some?
    ensures TakePiece([BACKSLASH, letter] + rest) == Found(Short(letter), rest)
  {
    assert ([BACKSLASH, letter] + rest)[2..] == rest;
  }

  lemma TakeLong(p: Piece, body: text, rest: text)
    requires TakeUnicode(body) == Found(p, rest)
    ensures TakePiece([BACKSLASH, LETTER_U] + body) == Found(p, rest)
  {
    assert ([BACKSLASH, LETTER_U] + body)[2..] == body;
  }

  lemma TakeSurrogates(p: Piece, rest: text)
    requires p.Surrogates? && PieceOk(p)
    ensures TakePiece(PieceText(p) + rest) == Found(p, rest)
  {
    var low := [BACKSLASH, LETTER_U] + p.low + rest;
    TakeSurrogatesComplete(p.high, p.low, rest);
    TakeLong(p, p.high + low, rest);
    assert PieceText(p) + rest == [BACKSLASH, LETTER_U] + (p.high + low);
  }

  lemma TakeComplete(p: Piece, rest: text)
    requires PieceOk(p)
    ensures TakePiece(PieceText(p) + rest) == Found(p, rest)
  {
    match p
    case Plain(c) =>
      assert ([c] + rest)[1..] == rest;
    case Short(letter) =>
      TakeShort(letter, rest);
    case Unicode(d) =>
      TakeUnicodeComplete(d, rest);
      TakeLong(p, d + rest, rest);
      Assoc([BACKSLASH, LETTER_U], d, rest);
    case Surrogates(_, _) =>
      TakeSurrogates(p, rest);
  }

  lemma {:induction false} PiecesSound(t: text, ps: seq<Piece>)
    requires Pieces(t) == Some(ps)
    ensures AllOk(ps) && PiecesText(ps) == t
    decreases |t|
  {
    if t != [] {
      var p, rest := TakePiece(t).value, TakePiece(t).rest;
      var more := Pieces(rest).value;
      PiecesSound(rest, more);
      assert ps[0] == p && ps[1..] == more;
      TakeSound(t);
    }
  }

  lemma PiecesOf(t: text, p: Piece, rest: text, ps: seq<Piece>)
    requires t != [] && TakePiece(t) == Found(p, rest) && Pieces(rest) == Some(ps)
    ensures Pieces(t) == Some([p] + ps)
  {
  }

  lemma OnePiece(p: Piece, more: text, ps: seq<Piece>)
    requires PieceOk(p) && Pieces(more) == Some(ps)
    ensures Pieces(PieceText(p) + more) == Some([p] + ps)
  {
    TakeComplete(p, more);
    PiecesOf(PieceText(p) + more, p, more, ps);
  }

  lemma {:induction false} PiecesComplete(ps: seq<Piece>)
    requires AllOk(ps)
    ensures Pieces(PiecesText(ps)) == Some(ps)
  {
    if ps != [] {
      PiecesComplete(ps[1..]);
      OnePiece(ps[0], PiecesText(ps[1..]), ps[1..]);
      assert ps == [ps[0]] + ps[1..];
    }
  }

  // ---- Reading literals ----

  /** The spelling of a raw literal: `None` when it is not a string literal. */
  function Spelling(raw: seq<byte>): Option<seq<Piece>>
  {
    if |raw| < 2 || raw[0] != QUOTE || raw[|raw| - 1] != QUOTE then None
    else
      match DecodeAll(raw[1..|raw| - 1])
      case None => None
      case Some(t) => Pieces(t)
  }

  lemma InnerSound(inner: seq<byte>, ps: seq<Piece>)
    requires DecodeAll(inner).Some? && Pieces(DecodeAll(inner).value) == Some(ps)
    ensures AllOk(ps) && EncodeAll(PiecesText(ps)) == inner
  {
    DecodeSound(inner, DecodeAll(inner).value);
    PiecesSound(DecodeAll(inner).value, ps);
  }

  lemma QuotedInner(raw: seq<byte>)
    requires |raw| >= 2 && raw[0] == QUOTE && raw[|raw| - 1] == QUOTE
    ensures raw == [QUOTE] + raw[1..|raw| - 1] + [QUOTE]
  {
  }

  lemma SpellingSound(raw: seq<byte>, ps: seq<Piece>)
    requires Spelling(raw) == Some(ps)
    ensures AllOk(ps) && raw == Literal(ps)
  {
    InnerSound(raw[1..|raw| - 1], ps);
    QuotedInner(raw);
  }

  lemma SpellingComplete(ps: seq<Piece>)
    requires AllOk(ps)
    ensures Spelling(Literal(ps)) == Some(ps)
  {
    var raw, inner := Literal(ps), EncodeAll(PiecesText(ps));
    assert raw[1..|raw| - 1] == inner;
    RoundTrip(PiecesText(ps));
    PiecesComplete(ps);
  }

  /** Exactly the literals of the grammar have a spelling, and it is their own. */
  lemma SpellingExact(raw: seq<byte>, ps: seq<Piece>)
    ensures Spelling(raw) == Some(ps) <==> AllOk(ps) && raw == Literal(ps)
  {
    if Spelling(raw) == Some(ps) { SpellingSound(raw, ps); }
    if AllOk(ps) && raw == Literal(ps) { SpellingComplete(ps); }
  }

  /** The text a raw literal stands for. */
  function Decoded(raw: seq<byte>): Option<text>
  {
    match Spelling(raw)
    case None => None
    case Some(ps) => SpellingSound(raw, ps); Some(Meaning(ps))
  }

  function Unescaped(t: text): Option<text>
  {
    match Pieces(t)
    case None => None
    case Some(ps) => PiecesSound(t, ps); Some(Meaning(ps))
  }

  function Prepend(out: text, o: Option<text>): Option<text>
  {
    match o
    case None => None
    case Some(t) => Some(out + t)
  }

  lemma UnescapeStep(t: text)
    requires t != []
    ensures TakePiece(t) == NoMatch ==> Unescaped(t) == None
    ensures TakePiece(t).Found? ==>
      var r := TakePiece(t);
      PieceOk(r.value) && Unescaped(t) == Prepend([PieceMeaning(r.value)], Unescaped(r.rest))
  {
    if TakePiece(t).Found? {
      TakeSound(t);
      var r := TakePiece(t);
      var more := Pieces(r.rest);
      if more.Some? {
        var ps := [r.value] + more.value;
        assert ps[1..] == more.value;
        PiecesSound(r.rest, more.value);
      }
    }
  }

  /** Reading one character: `c` is what the piece at the front means. */
  ghost predicate ReadsPiece(c: Option<scalar>, rest: text, r: Scan<Piece, scalar>)
  {
    match r
    case NoMatch => c == None
    case Found(p, more) => PieceOk(p) && c == Some(PieceMeaning(p)) && rest == more
  }

  predicate HasBare(t: text)
  {
    exists c :: c in t && (c <= 0x1F || c == QUOTE)
  }

  /** Text without a backslash stands for itself, unless it holds what must be escaped. */
  lemma {:induction false} WithoutEscapes(t: text)
    requires BACKSLASH !in t
    ensures Unescaped(t) == if HasBare(t) then None else Some(t)
  {
    if t != [] {
      UnescapeStep(t);
      WithoutEscapes(t[1..]);
      assert t == [t[0]] + t[1..];
      if HasBare(t[1..]) {
        var c :| c in t[1..] && (c <= 0x1F || c == QUOTE);
        assert c in t;
      }
      assert t[0] in t;
    }
  }

  /** Four hexadecimal digits at the front, if there are four. */
  method TakeHex(t: text) returns (v: Option<nat>, rest: text)
    ensures v.Some? <==> |t| >= 4 && FourHex(t[..4])
    ensures v.Some? ==> v.value == Hex4(t[..4]) && rest == t[4..]
  {
    var n := if |t| < 4 then |t| else 4;
    rest := t[n..];
    v := if FourHex(t[..n]) then Some(Hex4(t[..n])) else None;
  }

  /** The character of a `\u` escape, after its `u`. */
  method ReadUnicode(t: text) returns (c: Option<scalar>, rest: text)
    ensures ReadsPiece(c, rest, TakeUnicode(t))
  {
    var cp;
    cp, rest := TakeHex(t);
    if cp == None {
      return None, rest;
    }
    if !HighSurrogate(cp.value) {
      return if LowSurrogate(cp.value) then None else Some(cp.value), rest;
    }
    if |rest| < 2 || rest[0] != BACKSLASH || rest[1] != LETTER_U {
      return None, rest;
    }
    assert |t| >= 10 ==> t[4..][2..][..4] == t[4..][2..6];
    var low;
    low, rest := TakeHex(rest[2..]);
    if low == None || !LowSurrogate(low.value) {
      return None, rest;
    }
    c := Some(0x1_0000 + (cp.value - 0xD800) * 1024 + (low.value - 0xDC00));
  }

  /** The next character of string contents. */
  method ReadChar(t: text) returns (c: Option<scalar>, rest: text)
    requires t != []
    ensures ReadsPiece(c, rest, TakePiece(t))
  {
    rest := t[1..];
    if t[0] != BACKSLASH {
      return if t[0] <= 0x1F || t[0] == QUOTE then None else Some(t[0]), rest;
    }
    if rest == [] {
      return None, rest;
    }
    var letter := rest[0];
    rest := rest[1..];
    if letter == LETTER_U {
      c, rest := ReadUnicode(rest);
    } else {
      c := ShortMeaning(letter);
    }
  }

  /** Decode a raw literal. */
  method DecodeJsonString(raw: seq<byte>) returns (r: Option<text>)
    ensures r == Decoded(raw)
  {
    if |raw| < 2 || raw[0] != QUOTE || raw[|raw| - 1] != QUOTE {
      return None;
    }
    var decoded := DecodeAll(raw[1..|raw| - 1]);
    if decoded == None {
      return None;
    }
    var t := decoded.value;
    assert Decoded(raw) == Unescaped(t);
    if BACKSLASH !in t {
      WithoutEscapes(t);
      return if HasBare(t) then None else Some(t);
    }
    var out, it := [], t;
    assert Prepend([], Unescaped(t)) == Unescaped(t) by {
      if Unescaped(t).Some? { assert [] + Unescaped(t).value == Unescaped(t).value; }
    }
    while it != []
      invariant Prepend(out, Unescaped(it)) == Unescaped(t)
      decreases |it|
    {
      UnescapeStep(it);
      var c, rest := ReadChar(it);
      if c == None {
        return None;
      }
      if Unescaped(rest).Some? { Assoc(out, [c.value], Unescaped(rest).value); }
      out, it := out + [c.value], rest;
    }
    assert out + [] == out;
    r := Some(out);
  }

  // ---- Finding the end of a literal ----

  /** How many bytes the rest of a literal takes, given what follows its opening quote. */
  function Closing(s: seq<byte>): (n: nat)
    ensures n <= |s|
  {
    if s == [] then 0
    else if s[0] == BACKSLASH then
      if |s| < 2 then 1 else 2 + Closing(s[2..])
    else if s[0] == QUOTE then 1
    else 1 + Closing(s[1..])
  }

  method SkipString(b: seq<byte>, i: nat) returns (end: nat)
    requires i < |b|
    ensures end == i + 1 + Closing(b[i + 1..])
  {
    var k := i + 1;
    while k < |b|
      invariant i + 1 <= k
      invariant k <= |b| ==> k + Closing(b[k..]) == i + 1 + Closing(b[i + 1..])
      invariant k > |b| ==> |b| == i + 1 + Closing(b[i + 1..])
    {
      if b[k] == BACKSLASH {
        assert k + 2 <= |b| ==> b[k..][2..] == b[k + 2..];
        k := k + 2;
      } else if b[k] == QUOTE {
        return k + 1;
      } else {
        assert b[k..][1..] == b[k + 1..];
        k := k + 1;
      }
    }
    end := |b|;
  }

  /** Bytes that are neither quote nor backslash are passed over one by one. */
  lemma {:induction false} ClosingSkips(w: seq<byte>, s: seq<byte>)
    requires QUOTE !in w && BACKSLASH !in w
    ensures Closing(w + s) == |w| + Closing(s)
  {
    if w == [] {
      assert w + s == s;
    } else {
      assert w[0] in w;
      assert (w + s)[1..] == w[1..] + s;
      ClosingSkips(w[1..], s);
    }
  }

  lemma ClosingEscape(letter: byte, w: seq<byte>, s: seq<byte>)
    requires QUOTE !in w && BACKSLASH !in w
    ensures Closing([BACKSLASH, letter] + w + s) == 2 + |w| + Closing(s)
  {
    var all := [BACKSLASH, letter] + w + s;
    assert all[2..] == w + s;
    ClosingSkips(w, s);
  }

  lemma {:induction false} EncodeAscii(t: text)
    requires forall k :: 0 <= k < |t| ==> t[k] < 0x80
    ensures EncodeAll(t) == seq(|t|, k requires 0 <= k < |t| => t[k])
  {
    if t != [] {
      EncodeAscii(t[1..]);
    }
  }

  lemma HexBytes(d: text)
    requires FourHex(d)
    ensures EncodeAll(d) == [d[0], d[1], d[2], d[3]]
  {
    EncodeAscii(d);
  }

  lemma ClosingPiece(p: Piece, s: seq<byte>)
    requires PieceOk(p)
    ensures Closing(EncodeAll(PieceText(p)) + s) == |EncodeAll(PieceText(p))| + Closing(s)
  {
    match p
    case Plain(c) =>
      assert EncodeAll([c]) == Encode(c);
      forall k | 0 <= k < |Encode(c)| ensures Encode(c)[k] != QUOTE && Encode(c)[k] != BACKSLASH {
        if c >= 0x80 { HighBytes(c, k); }
      }
      ClosingSkips(Encode(c), s);
    case Short(letter) =>
      EncodeAscii([BACKSLASH, letter]);
      ClosingEscape(letter, [], s);
      assert EncodeAll(PieceText(p)) == [BACKSLASH, letter];
    case Unicode(d) =>
      UnicodeBytes(d);
      ClosingEscape(LETTER_U, EncodeAll(d), s);
    case Surrogates(h, l) =>
      UnicodeBytes(h);
      UnicodeBytes(l);
      var hi, lo := [BACKSLASH, LETTER_U] + EncodeAll(h), [BACKSLASH, LETTER_U] + EncodeAll(l);
      EncodeAppend([BACKSLASH, LETTER_U] + h, [BACKSLASH, LETTER_U] + l);
      assert PieceText(p) == ([BACKSLASH, LETTER_U] + h) + ([BACKSLASH, LETTER_U] + l);
      Assoc(hi, lo, s);
      ClosingEscape(LETTER_U, EncodeAll(h), lo + s);
      ClosingEscape(LETTER_U, EncodeAll(l), s);
  }

  lemma UnicodeBytes(d: text)
    requires FourHex(d)
    ensures EncodeAll([BACKSLASH, LETTER_U] + d) == [BACKSLASH, LETTER_U] + EncodeAll(d)
    ensures QUOTE !in EncodeAll(d) && BACKSLASH !in EncodeAll(d)
  {
    EncodeAppend([BACKSLASH, LETTER_U], d);
    EncodeAscii([BACKSLASH, LETTER_U]);
    HexBytes(d);
  }

  /** The scan stops exactly behind a literal of the grammar, whatever follows it. */
  lemma {:induction false} ClosingLiteral(ps: seq<Piece>, rest: seq<byte>)
    requires AllOk(ps)
    ensures Closing(EncodeAll(PiecesText(ps)) + ([QUOTE] + rest)) == |EncodeAll(PiecesText(ps))| + 1
  {
    var tail := [QUOTE] + rest;
    if ps == [] {
      assert EncodeAll(PiecesText(ps)) + tail == tail;
    } else {
      var first, more := EncodeAll(PieceText(ps[0])), EncodeAll(PiecesText(ps[1..]));
      EncodeAppend(PieceText(ps[0]), PiecesText(ps[1..]));
      Assoc(first, more, tail);
      ClosingPiece(ps[0], more + tail);
      ClosingLiteral(ps[1..], rest);
    }
  }

  // ---- Writing literals ----

  function HexDigit(n: nat): byte
    requires n < 16
  {
    if n < 10 then 0x30 + n else 0x61 + n - 10
  }

  /** How one byte of a text is written. */
  function Escape(b: byte): seq<byte>
  {
    if b == QUOTE then [BACKSLASH, QUOTE]
    else if b == BACKSLASH then [BACKSLASH, BACKSLASH]
    else if b == 0x0A then [BACKSLASH, 0x6E]
    else if b == 0x0D then [BACKSLASH, 0x72]
    else if b == 0x09 then [BACKSLASH, 0x74]
    else if b <= 0x1F then [BACKSLASH, LETTER_U, 0x30, 0x30, HexDigit(b / 16), HexDigit(b % 16)]
    else [b]
  }

  function EscapeAll(s: seq<byte>): seq<byte>
  {
    if s == [] then [] else Escape(s[0]) + EscapeAll(s[1..])
  }

  /** The literal written for the bytes of a text. */
  function Quoted(s: seq<byte>): seq<byte>
  {
    [QUOTE] + EscapeAll(s) + [QUOTE]
  }

  lemma EscapeStep(b: byte, s: seq<byte>)
    ensures EscapeAll([b] + s) == Escape(b) + EscapeAll(s)
  {
    assert ([b] + s)[1..] == s;
  }

  lemma {:induction false} EscapeAppend(s: seq<byte>, t: seq<byte>)
    ensures EscapeAll(s + t) == EscapeAll(s) + EscapeAll(t)
  {
    if s == [] {
      assert s + t == t;
    } else {
      EscapeAppend(s[1..], t);
      EscapeStep(s[0], s[1..] + t);
      assert s + t == [s[0]] + (s[1..] + t);
      Assoc(Escape(s[0]), EscapeAll(s[1..]), EscapeAll(t));
    }
  }

  method WriteByte(out: seq<byte>, b: byte) returns (r: seq<byte>)
    ensures r == out + Escape(b)
  {
    if b == QUOTE {
      r := out + [BACKSLASH, QUOTE];
    } else if b == BACKSLASH {
      r := out + [BACKSLASH, BACKSLASH];
    } else if b == 0x0A {
      r := out + [BACKSLASH, 0x6E];
    } else if b == 0x0D {
      r := out + [BACKSLASH, 0x72];
    } else if b == 0x09 {
      r := out + [BACKSLASH, 0x74];
    } else if b <= 0x1F {
      r := out + [BACKSLASH, LETTER_U, 0x30, 0x30];
      r := r + [HexDigit(b / 16)];
      r := r + [HexDigit(b % 16)];
    } else {
      r := out + [b];
    }
  }

  method WriteJsonString(out: seq<byte>, s: seq<byte>) returns (r: seq<byte>)
    ensures r == out + Quoted(s)
  {
    r := out + [QUOTE];
    for k := 0 to |s|
      invariant r == out + [QUOTE] + EscapeAll(s[..k])
    {
      EscapeAppend(s[..k], [s[k]]);
      assert s[..k + 1] == s[..k] + [s[k]];
      assert EscapeAll([s[k]]) == Escape(s[k]);
      Assoc(out + [QUOTE], EscapeAll(s[..k]), Escape(s[k]));
      r := WriteByte(r, s[k]);
    }
    assert s[..|s|] == s;
    r := r + [QUOTE];
  }

  /** How one character of a text is written. */
  function Written(c: scalar): (p: Piece)
    ensures PieceOk(p) && PieceMeaning(p) == c
  {
    if c == QUOTE || c == BACKSLASH then Short(c)
    else if c == 0x0A then Short(0x6E)
    else if c == 0x0D then Short(0x72)
    else if c == 0x09 then Short(0x74)
    else if c <= 0x1F then Unicode([0x30, 0x30, HexDigit(c / 16), HexDigit(c % 16)])
    else Plain(c)
  }

  function WrittenAll(t: text): (ps: seq<Piece>)
    ensures AllOk(ps) && Meaning(ps) == t
  {
    if t == [] then [] else [Written(t[0])] + WrittenAll(t[1..])
  }

  lemma {:induction false} EscapePlain(s: seq<byte>)
    requires forall k :: 0 <= k < |s| ==> s[k] >= 0x20 && s[k] != QUOTE && s[k] != BACKSLASH
    ensures EscapeAll(s) == s
  {
    if s != [] {
      EscapePlain(s[1..]);
    }
  }

  lemma PlainIsWritten(c: scalar)
    requires c >= 0x20 && c != QUOTE && c != BACKSLASH
    ensures EscapeAll(Encode(c)) == EncodeAll([c])
  {
    forall k | 0 <= k < |Encode(c)| ensures Encode(c)[k] >= 0x20 && Encode(c)[k] != QUOTE && Encode(c)[k] != BACKSLASH {
      if c >= 0x80 { HighBytes(c, k); }
    }
    EscapePlain(Encode(c));
    assert EncodeAll([c]) == Encode(c);
  }

  lemma UnicodeEscapeBytes(d: text)
    requires FourHex(d)
    ensures EncodeAll([BACKSLASH, LETTER_U] + d) == [BACKSLASH, LETTER_U, d[0], d[1], d[2], d[3]]
  {
    UnicodeBytes(d);
    HexBytes(d);
  }

  lemma ControlIsWritten(c: scalar)
    requires c <= 0x1F && c != 0x0A && c != 0x0D && c != 0x09
    ensures EscapeAll(Encode(c)) == EncodeAll(PieceText(Written(c)))
  {
    assert Encode(c) == [c];
    assert EscapeAll([c]) == Escape(c) + [];
    UnicodeEscapeBytes([0x30, 0x30, HexDigit(c / 16), HexDigit(c % 16)]);
  }

  lemma ShortIsWritten(c: scalar)
    requires c == QUOTE || c == BACKSLASH || c == 0x0A || c == 0x0D || c == 0x09
    ensures EscapeAll(Encode(c)) == EncodeAll(PieceText(Written(c)))
  {
    assert EscapeAll([c]) == Escape(c);
    EncodeAscii(PieceText(Written(c)));
  }

  /** Escaping the bytes of a character writes it as one piece. */
  lemma EscapeIsWritten(c: scalar)
    ensures EscapeAll(Encode(c)) == EncodeAll(PieceText(Written(c)))
  {
    if c == QUOTE || c == BACKSLASH || c == 0x0A || c == 0x0D || c == 0x09 {
      ShortIsWritten(c);
    } else if c <= 0x1F {
      ControlIsWritten(c);
    } else {
      PlainIsWritten(c);
    }
  }

  /** What is written is the literal of the grammar that spells the text. */
  lemma {:induction false} QuotedIsLiteral(t: text)
    ensures Quoted(EncodeAll(t)) == Literal(WrittenAll(t))
    ensures EscapeAll(EncodeAll(t)) == EncodeAll(PiecesText(WrittenAll(t)))
  {
    if t != [] {
      QuotedIsLiteral(t[1..]);
      EscapeIsWritten(t[0]);
      EscapeAppend(Encode(t[0]), EncodeAll(t[1..]));
      EncodeAppend(PieceText(Written(t[0])), PiecesText(WrittenAll(t[1..])));
      assert WrittenAll(t)[1..] == WrittenAll(t[1..]);
    }
  }

  /** Decoding the literal written for any text gives the text back. */
  lemma StringRoundTrip(t: text)
    ensures Decoded(Quoted(EncodeAll(t))) == Some(t)
  {
    QuotedIsLiteral(t);
    SpellingComplete(WrittenAll(t));
  }
}
