/** Unicode text and its UTF-8 form (RFC 3629), as the source language's own strings keep it. */
module Utf8 {
  import opened Bits

  type scalar = x: int | 0 <= x < 0x11_0000 && !(0xD800 <= x < 0xE000)

  type text = seq<scalar>

  /** The one to four bytes of a scalar value. */
  function Encode(c: scalar): (s: seq<byte>)
    ensures 1 <= |s| <= 4
  {
    if c < 0x80 then [c]
    else if c < 0x800 then [0xC0 + c / 64, 0x80 + c % 64]
    else if c < 0x1_0000 then [0xE0 + c / 64 / 64, 0x80 + c / 64 % 64, 0x80 + c % 64]
    else [0xF0 + c / 64 / 64 / 64, 0x80 + c / 64 / 64 % 64, 0x80 + c / 64 % 64, 0x80 + c % 64]
  }

  function EncodeAll(t: text): seq<byte>
  {
    if t == [] then [] else Encode(t[0]) + EncodeAll(t[1..])
  }

  /** The number that the bits of a sequence spell, whether or not it is one a sequence may spell. */
  function Spelled(b: seq<byte>): int
    requires b != []
  {
    var lead: int := b[0];
    if lead < 0x80 then lead
    else if lead < 0xE0 && |b| >= 2 then Join(lead - 0xC0, b[1])
    else if lead < 0xF0 && |b| >= 3 then Join(Join(lead - 0xE0, b[1]), b[2])
    else if |b| >= 4 then Join(Join(Join(lead - 0xF0, b[1]), b[2]), b[3])
    else -1
  }

  /** Six more bits from a continuation byte. */
  function Join(high: int, next: byte): int
  {
    var low: int := next;
    high * 64 + (low - 0x80)
  }

  /** The scalar value at the front; overlong forms, surrogates and stray bytes are refused. */
  function First(b: seq<byte>): (c: Option<scalar>)
    requires b != []
    ensures c.Some? ==> Encode(c.value) <= b
  {
    var n := Spelled(b);
    if 0 <= n < 0x11_0000 && !(0xD800 <= n < 0xE000) && Encode(n) <= b then Some(n) else None
  }

  function DecodeAll(b: seq<byte>): Option<text>
  {
    if b == [] then Some([])
    else
      match First(b)
      case None => None
      case Some(c) =>
        match DecodeAll(b[|Encode(c)|..])
        case None => None
        case Some(t) => Some([c] + t)
  }

  lemma SpelledEncode(c: scalar, b: seq<byte>)
    requires Encode(c) <= b
    ensures Spelled(b) == c
  {
    var e := Encode(c);
    assert b[0] == e[0];
    if c >= 0x80 { assert b[1] == e[1]; }
    if c >= 0x800 { assert b[2] == e[2]; }
    if c >= 0x1_0000 { assert b[3] == e[3]; }
  }

  lemma FirstOfEncode(c: scalar, rest: seq<byte>)
    ensures First(Encode(c) + rest) == Some(c)
  {
    SpelledEncode(c, Encode(c) + rest);
  }

  lemma DecodeOne(c: scalar, more: seq<byte>, t: text)
    requires DecodeAll(more) == Some(t)
    ensures DecodeAll(Encode(c) + more) == Some([c] + t)
  {
    FirstOfEncode(c, more);
    assert (Encode(c) + more)[|Encode(c)|..] == more;
  }

  /** Decoding undoes encoding. */
  lemma {:induction false} RoundTrip(t: text)
    ensures DecodeAll(EncodeAll(t)) == Some(t)
  {
    if t != [] {
      RoundTrip(t[1..]);
      DecodeOne(t[0], EncodeAll(t[1..]), t[1..]);
      assert t == [t[0]] + t[1..];
    }
  }

  lemma DecodeStep(b: seq<byte>, t: text) returns (c: scalar, rest: text, more: seq<byte>)
    requires b != [] && DecodeAll(b) == Some(t)
    ensures t == [c] + rest && b == Encode(c) + more && |more| < |b| && DecodeAll(more) == Some(rest)
  {
    c := First(b).value;
    more := b[|Encode(c)|..];
    rest := DecodeAll(more).value;
  }

  /** Only the encoding of a text decodes to it. */
  lemma {:induction false} DecodeSound(b: seq<byte>, t: text)
    requires DecodeAll(b) == Some(t)
    ensures EncodeAll(t) == b
    decreases |b|
  {
    if b != [] {
      var c, rest, more := DecodeStep(b, t);
      DecodeSound(more, rest);
      assert t[0] == c && t[1..] == rest;
    }
  }

  lemma {:induction false} EncodeAppend(s: text, t: text)
    ensures EncodeAll(s + t) == EncodeAll(s) + EncodeAll(t)
  {
    if s == [] {
      assert s + t == t;
    } else {
      EncodeAppend(s[1..], t);
      assert (s + t)[1..] == s[1..] + t;
      Assoc(Encode(s[0]), EncodeAll(s[1..]), EncodeAll(t));
    }
  }

  /** Only ASCII characters have bytes below 0x80. */
  lemma HighBytes(c: scalar, k: nat)
    requires c >= 0x80 && k < |Encode(c)|
    ensures Encode(c)[k] >= 0x80
  {
  }
}
