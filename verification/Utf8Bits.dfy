/**
  The bits of an encoded character as the table in section 3 of RFC 3629 lays them out: the
  number of leading ones in the first byte, 10 in front of every other, and the character's own
  bits, most significant first, in what is left.
 */
module Utf8Bits {
  import opened Bits
  import opened Utf8
  import B = Base64

  /** A byte of which the first bits are given and the others carry `low`. */
  lemma ByteParts(b: byte, mark: nat, low: nat, m: nat, n: nat)
    requires m + n == 8 && low < Pow2(n) && b == Shl(mark, n) + low
    ensures Msb(b, 8)[..m] == Msb(mark, m) && Msb(b, 8)[m..] == Msb(low, n)
  {
    B.MsbJoin(mark, low, m, n);
  }

  lemma Marks()
    ensures Shl(2, 6) == 0x80 && Shl(6, 5) == 0xC0 && Shl(14, 4) == 0xE0 && Shl(30, 3) == 0xF0
    ensures Pow2(3) == 8 && Pow2(4) == 16 && Pow2(5) == 32 && Pow2(6) == 64
    ensures Msb(2, 2) == [true, false] && Msb(6, 3) == [true, true, false]
    ensures Msb(14, 4) == [true, true, true, false] && Msb(30, 5) == [true, true, true, true, false]
  {
  }

  /** A byte behind the first: 10 and six bits. */
  predicate Continues(b: byte, bits: seq<bool>)
  {
    |bits| == 6 && Msb(b, 8) == [true, false] + bits
  }

  lemma ContinuationBits(b: byte, low: nat)
    requires low < 64 && b == 0x80 + low
    ensures Continues(b, Msb(low, 6))
  {
    Marks();
    ByteParts(b, 2, low, 2, 6);
  }

  /** The last six bits of a number. */
  lemma LastSix(v: nat, m: nat)
    ensures Msb(v, m + 6) == Msb(v / 64, m) + Msb(v % 64, 6)
  {
    Marks();
    B.ShlByLiteral(v / 64);
    B.MsbJoin(v / 64, v % 64, m, 6);
  }

  lemma LastTwelve(v: nat, m: nat)
    ensures Msb(v, m + 12) == Msb(v / 64 / 64, m) + Msb(v / 64 % 64, 6) + Msb(v % 64, 6)
  {
    LastSix(v, m + 6);
    LastSix(v / 64, m);
  }

  lemma LastEighteen(v: nat, m: nat)
    ensures Msb(v, m + 18) ==
      Msb(v / 64 / 64 / 64, m) + Msb(v / 64 / 64 % 64, 6) + Msb(v / 64 % 64, 6) + Msb(v % 64, 6)
  {
    LastSix(v, m + 12);
    LastTwelve(v / 64, m);
  }

  lemma LeadBits(b: byte, mark: nat, low: nat, m: nat, n: nat, front: seq<bool>)
    requires m + n == 8 && low < Pow2(n) && b == Shl(mark, n) + low && front == Msb(mark, m)
    ensures Msb(b, 8) == front + Msb(low, n)
  {
    ByteParts(b, mark, low, m, n);
  }

  /** Two bytes carry eleven bits. */
  lemma TwoBytes(c: scalar)
    requires 0x80 <= c < 0x800
    ensures
      var s, lead, last := Encode(c), Msb(c / 64, 5), Msb(c % 64, 6);
      && |s| == 2 && Msb(s[0], 8) == [true, true, false] + lead && Continues(s[1], last) && Msb(c, 11) == lead + last
  {
    Marks();
    LeadBits(Encode(c)[0], 6, c / 64, 3, 5, [true, true, false]);
    ContinuationBits(Encode(c)[1], c % 64);
    LastSix(c, 5);
  }

  lemma LeadOfThree(c: scalar)
    requires 0x800 <= c < 0x1_0000
    ensures |Encode(c)| == 3 && Msb(Encode(c)[0], 8) == [true, true, true, false] + Msb(c / 64 / 64, 4)
  {
    Marks();
    LeadBits(Encode(c)[0], 14, c / 64 / 64, 4, 4, [true, true, true, false]);
  }

  /** Three bytes carry sixteen. */
  lemma ThreeBytes(c: scalar)
    requires 0x800 <= c < 0x1_0000
    ensures
      var s, lead, mid, last := Encode(c), Msb(c / 64 / 64, 4), Msb(c / 64 % 64, 6), Msb(c % 64, 6);
      && |s| == 3 && Msb(s[0], 8) == [true, true, true, false] + lead
      && Continues(s[1], mid) && Continues(s[2], last) && Msb(c, 16) == lead + mid + last
  {
    LeadOfThree(c);
    ContinuationBits(Encode(c)[1], c / 64 % 64);
    ContinuationBits(Encode(c)[2], c % 64);
    LastTwelve(c, 4);
  }

  lemma LeadOfFour(c: scalar)
    requires 0x1_0000 <= c
    ensures |Encode(c)| == 4 && Msb(Encode(c)[0], 8) == [true, true, true, true, false] + Msb(c / 64 / 64 / 64, 3)
  {
    Marks();
    LeadBits(Encode(c)[0], 30, c / 64 / 64 / 64, 5, 3, [true, true, true, true, false]);
  }

  /** Four bytes carry twenty-one. */
  lemma FourBytes(c: scalar)
    requires 0x1_0000 <= c
    ensures
      var p := c / 64 / 64;
      var s, lead, a, b, last := Encode(c), Msb(p / 64, 3), Msb(p % 64, 6), Msb(c / 64 % 64, 6), Msb(c % 64, 6);
      && |s| == 4 && Msb(s[0], 8) == [true, true, true, true, false] + lead
      && Continues(s[1], a) && Continues(s[2], b) && Continues(s[3], last) && Msb(c, 21) == lead + a + b + last
  {
    LeadOfFour(c);
    ContinuationBits(Encode(c)[1], c / 64 / 64 % 64);
    ContinuationBits(Encode(c)[2], c / 64 % 64);
    ContinuationBits(Encode(c)[3], c % 64);
    LastEighteen(c, 3);
  }
}
