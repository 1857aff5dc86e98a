/**
  How section 7 of RFC 8259 lets each character of a string be written, with the escape letters
  and the UTF-16 code units spelled out, and that the decoder reads exactly these spellings.
 */
module JsonEscapes {
  import opened Bits
  import opened Utf8
  import opened JsonStrings

  // ---- Spellings ----

  /** `d` is a hexadecimal digit of value `v`, in either case. */
  predicate IsDigit(d: scalar, v: nat)
  {
    if v < 10 then d == 0x30 + v else v < 16 && (d == 0x41 + (v - 10) || d == 0x61 + (v - 10))
  }

  /** `d` writes the code unit `v` in four digits. */
  predicate FourDigits(d: text, v: nat)
  {
    && |d| == 4
    && IsDigit(d[0], v / 4096) && IsDigit(d[1], v / 256 % 16) && IsDigit(d[2], v / 16 % 16) && IsDigit(d[3], v % 16)
  }

  /** The characters with an escape letter of their own. */
  predicate HasLetter(letter: scalar, c: scalar)
  {
    || (letter == 0x22 && c == 0x22) || (letter == 0x5C && c == 0x5C) || (letter == 0x2F && c == 0x2F)
    || (letter == 0x62 && c == 0x08) || (letter == 0x66 && c == 0x0C) || (letter == 0x6E && c == 0x0A)
    || (letter == 0x72 && c == 0x0D) || (letter == 0x74 && c == 0x09)
  }

  predicate AsItIs(s: text, c: scalar)
  {
    s == [c] && c >= 0x20 && c != 0x22 && c != 0x5C
  }

  predicate ByLetter(s: text, c: scalar)
  {
    |s| == 2 && s[0] == 0x5C && HasLetter(s[1], c)
  }

  /** One code unit, for a character of the basic plane. */
  predicate ByUnit(s: text, c: scalar)
  {
    |s| == 6 && s[0] == 0x5C && s[1] == 0x75 && c < 0x1_0000 && FourDigits(s[2..], c)
  }

  /** Two code units, for any other: ten bits in each. */
  predicate ByPair(s: text, c: scalar)
  {
    && |s| == 12 && s[0] == 0x5C && s[1] == 0x75 && s[6] == 0x5C && s[7] == 0x75 && c >= 0x1_0000
    && FourDigits(s[2..6], 0xD800 + (c - 0x1_0000) / 1024) && FourDigits(s[8..], 0xDC00 + (c - 0x1_0000) % 1024)
  }

  predicate Writes(s: text, c: scalar)
  {
    AsItIs(s, c) || ByLetter(s, c) || ByUnit(s, c) || ByPair(s, c)
  }

  /** The parts write the characters of the text, one each. */
  ghost predicate AllWritten(parts: seq<text>, t: text)
  {
    |parts| == |t| && forall k :: 0 <= k < |t| ==> Writes(parts[k], t[k])
  }

  function Flat(parts: seq<text>): text
  {
    if parts == [] then [] else parts[0] + Flat(parts[1..])
  }

  // ---- Digits ----

  lemma DigitExact(d: scalar, v: nat)
    requires v < 16
    ensures IsDigit(d, v) <==> IsHex(d) && HexValue(d) == v
  {
  }

  lemma LastNibble(v: nat, q: nat, d: nat)
    requires d < 16
    ensures v == q * 16 + d <==> q == v / 16 && d == v % 16
  {
  }

  lemma Nibbles(v: nat, a: nat, b: nat, c: nat, d: nat)
    requires v < 0x1_0000 && a < 16 && b < 16 && c < 16 && d < 16
    ensures v == a * 4096 + b * 256 + c * 16 + d <==>
      a == v / 4096 && b == v / 256 % 16 && c == v / 16 % 16 && d == v % 16
  {
    LastNibble(v, a * 256 + b * 16 + c, d);
    LastNibble(v / 16, a * 16 + b, c);
    LastNibble(v / 256, a, b);
  }

  lemma DigitsExact(d: text, v: nat)
    requires v < 0x1_0000
    ensures FourDigits(d, v) <==> FourHex(d) && Hex4(d) == v
  {
    if |d| == 4 {
      DigitExact(d[0], v / 4096);
      DigitExact(d[1], v / 256 % 16);
      DigitExact(d[2], v / 16 % 16);
      DigitExact(d[3], v % 16);
      if FourHex(d) { Nibbles(v, HexValue(d[0]), HexValue(d[1]), HexValue(d[2]), HexValue(d[3])); }
    }
  }

  // ---- Each spelling is a piece of the grammar ----

  ghost predicate PieceFor(p: Piece, s: text, c: scalar)
  {
    PieceOk(p) && PieceText(p) == s && PieceMeaning(p) == c
  }

  lemma PairValue(c: scalar, high: nat, low: nat)
    requires c >= 0x1_0000
    ensures HighSurrogate(0xD800 + (c - 0x1_0000) / 1024) && LowSurrogate(0xDC00 + (c - 0x1_0000) % 1024)
    ensures 0xD800 <= high && 0xDC00 <= low < 0xE000 ==>
      (high == 0xD800 + (c - 0x1_0000) / 1024 && low == 0xDC00 + (c - 0x1_0000) % 1024 <==>
       c == 0x1_0000 + (high - 0xD800) * 1024 + (low - 0xDC00))
  {
  }

  lemma PairPiece(s: text, c: scalar) returns (p: Piece)
    requires ByPair(s, c)
    ensures PieceFor(p, s, c)
  {
    var high, low := 0xD800 + (c - 0x1_0000) / 1024, 0xDC00 + (c - 0x1_0000) % 1024;
    PairValue(c, high, low);
    DigitsExact(s[2..6], high);
    DigitsExact(s[8..], low);
    p := Surrogates(s[2..6], s[8..]);
    assert [s[0], s[1]] + s[2..6] + [s[6], s[7]] + s[8..] == s;
  }

  lemma PieceOf(s: text, c: scalar) returns (p: Piece)
    requires Writes(s, c)
    ensures PieceFor(p, s, c)
  {
    if AsItIs(s, c) {
      p := Plain(c);
    } else if ByLetter(s, c) {
      p := Short(s[1]);
    } else if ByUnit(s, c) {
      DigitsExact(s[2..], c);
      p := Unicode(s[2..]);
      assert [s[0], s[1]] + s[2..] == s;
    } else {
      p := PairPiece(s, c);
    }
  }

  lemma WrittenPair(h: text, l: text)
    requires PieceOk(Surrogates(h, l))
    ensures ByPair(PieceText(Surrogates(h, l)), PieceMeaning(Surrogates(h, l)))
  {
    var p := Surrogates(h, l);
    var s, c := PieceText(p), PieceMeaning(p);
    PairValue(c, Hex4(h), Hex4(l));
    DigitsExact(h, Hex4(h));
    DigitsExact(l, Hex4(l));
    assert s[2..6] == h && s[8..] == l;
  }

  lemma WrittenPiece(p: Piece)
    requires PieceOk(p)
    ensures Writes(PieceText(p), PieceMeaning(p))
  {
    match p
    case Plain(_) =>
    case Short(_) =>
    case Unicode(d) =>
      DigitsExact(d, Hex4(d));
      assert PieceText(p)[2..] == d;
    case Surrogates(h, l) =>
      WrittenPair(h, l);
  }

  // ---- Whole strings ----

  lemma {:induction false} PiecesOfParts(parts: seq<text>, t: text) returns (ps: seq<Piece>)
    requires AllWritten(parts, t)
    ensures AllOk(ps) && PiecesText(ps) == Flat(parts) && Meaning(ps) == t
    decreases |parts|
  {
    if parts == [] {
      ps := [];
    } else {
      var p := PieceOf(parts[0], t[0]);
      var more := PiecesOfParts(parts[1..], t[1..]);
      ps := [p] + more;
      assert ps[1..] == more;
    }
  }

  lemma {:induction false} PartsOfPieces(ps: seq<Piece>) returns (parts: seq<text>)
    requires AllOk(ps)
    ensures AllWritten(parts, Meaning(ps)) && PiecesText(ps) == Flat(parts)
  {
    if ps == [] {
      parts := [];
    } else {
      WrittenPiece(ps[0]);
      var more := PartsOfPieces(ps[1..]);
      parts := [PieceText(ps[0])] + more;
      assert parts[1..] == more;
    }
  }

  /** A string reads as the text it writes, however each character is spelled. */
  lemma EscapesRead(parts: seq<text>, t: text)
    requires AllWritten(parts, t)
    ensures Decoded([0x22] + EncodeAll(Flat(parts)) + [0x22]) == Some(t)
  {
    var ps := PiecesOfParts(parts, t);
    SpellingExact(Literal(ps), ps);
  }

  /** Nothing else is a string: the decoder takes exactly these spellings. */
  lemma EscapesExact(raw: seq<byte>, t: text)
    ensures Decoded(raw) == Some(t) <==>
      exists parts :: AllWritten(parts, t) && raw == [0x22] + EncodeAll(Flat(parts)) + [0x22]
  {
    if Decoded(raw) == Some(t) {
      var ps := Spelling(raw).value;
      SpellingSound(raw, ps);
      var parts := PartsOfPieces(ps);
    }
    if parts :| AllWritten(parts, t) && raw == [0x22] + EncodeAll(Flat(parts)) + [0x22] { EscapesRead(parts, t); }
  }
}
