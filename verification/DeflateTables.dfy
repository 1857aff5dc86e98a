/** The length, distance and fixed-code tables of sections 3.2.5 to 3.2.7 of RFC 1951. */
module DeflateTables {
  import opened Bits
  import opened Huffman

  const LEN_BASE: seq<nat> := [
    3, 4, 5, 6, 7, 8, 9, 10, 11, 13, 15, 17, 19, 23, 27, 31, 35, 43, 51, 59, 67, 83, 99, 115, 131,
    163, 195, 227, 258]
  const LEN_XTRA: seq<nat> := [
    0, 0, 0, 0, 0, 0, 0, 0, 1, 1, 1, 1, 2, 2, 2, 2, 3, 3, 3, 3, 4, 4, 4, 4, 5, 5, 5, 5, 0]
  const DIST_BASE: seq<nat> := [
    1, 2, 3, 4, 5, 7, 9, 13, 17, 25, 33, 49, 65, 97, 129, 193, 257, 385, 513, 769, 1025, 1537,
    2049, 3073, 4097, 6145, 8193, 12289, 16385, 24577]
  const DIST_XTRA: seq<nat> := [
    0, 0, 0, 0, 1, 1, 2, 2, 3, 3, 4, 4, 5, 5, 6, 6, 7, 7, 8, 8, 9, 9, 10, 10, 11, 11, 12, 12, 13,
    13]
  const CL_ORDER: seq<nat> := [
    16, 17, 18, 0, 8, 7, 9, 6, 10, 5, 11, 4, 12, 3, 13, 2, 14, 1, 15]

  function LLBits(s: nat): (r: nat)
    ensures 7 <= r <= 9
  {
    if s <= 143 then 8 else if s <= 255 then 9 else if s <= 279 then 7 else 8
  }

  /** The encoder's code table. */
  function LLCode(s: nat): nat
  {
    if s <= 143 then 0x30 + s
    else if s <= 255 then 0x190 + (s - 144)
    else if s == 256 then 0
    else if s <= 279 then 1 + (s - 257)
    else if s <= 287 then 0xC0 + (s - 280)
    else 0
  }

  function FixedLL(): (lens: seq<nat>)
    ensures |lens| == 288
  {
    seq(288, s requires 0 <= s < 288 => LLBits(s))
  }

  function FixedDist(): (lens: seq<nat>)
    ensures |lens| == 30
  {
    seq(30, _ => 5)
  }

  // ---- The fixed tables are canonical codes ----

  function Clip(k: nat, lo: nat, hi: nat): nat
    requires lo <= hi
  {
    if k <= lo then 0 else if k <= hi then k - lo else hi - lo
  }

  lemma {:induction false} FixedCounts(lens: seq<nat>, k: nat, l: nat)
    requires lens == FixedLL() && k <= |lens|
    ensures Count(lens, l, k) ==
      if l == 7 then Clip(k, 256, 280)
      else if l == 8 then Clip(k, 0, 144) + Clip(k, 280, 288)
      else if l == 9 then Clip(k, 144, 256)
      else 0
  {
    if k != 0 { FixedCounts(lens, k - 1, l); }
  }

  lemma {:induction false} FixedDistCounts(lens: seq<nat>, k: nat, l: nat)
    requires lens == FixedDist() && k <= |lens|
    ensures Count(lens, l, k) == if l == 5 then k else 0
  {
    if k != 0 { FixedDistCounts(lens, k - 1, l); }
  }

  /** Without shorter codes the code space starts at zero; without longer ones it just doubles. */
  lemma {:induction false} Doubling(lens: seq<nat>, l: nat, n: nat)
    requires forall j :: l < j <= l + n ==> BlCount(lens, j) == 0
    ensures Used(lens, l + n) == Shl(Used(lens, l), n)
  {
    if n != 0 {
      Doubling(lens, l, n - 1);
      assert BlCount(lens, l + n) == 0;
    }
  }

  lemma FixedSpace(lens: seq<nat>)
    requires lens == FixedLL()
    ensures Fits(lens) && KraftSum(lens, |lens|) == 0x8000
    ensures FirstCode(lens, 7) == 0 && FirstCode(lens, 8) == 48 && FirstCode(lens, 9) == 400
  {
    forall l: nat
      ensures BlCount(lens, l) == if l == 7 then 24 else if l == 8 then 152 else if l == 9 then 112 else 0
    {
      FixedCounts(lens, |lens|, l);
    }
    Doubling(lens, 0, 6);
    ShlZero(6);
    NextCode(lens, 7);
    NextCode(lens, 8);
    NextCode(lens, 9);
    Doubling(lens, 9, 6);
    KraftIsUsed(lens);
    SixDoublings(512);
  }

  lemma NextCode(lens: seq<nat>, l: nat)
    requires l > 0
    ensures FirstCode(lens, l) == 2 * Used(lens, l - 1)
  {
  }

  lemma SixDoublings(x: nat)
    ensures Shl(x, 6) == 64 * x
  {
    assert Shl(x, 1) == 2 * x && Shl(x, 2) == 2 * Shl(x, 1) && Shl(x, 3) == 2 * Shl(x, 2);
    assert Shl(x, 4) == 2 * Shl(x, 3) && Shl(x, 5) == 2 * Shl(x, 4) && Shl(x, 6) == 2 * Shl(x, 5);
  }

  lemma FixedDistSpace(lens: seq<nat>)
    requires lens == FixedDist()
    ensures Fits(lens) && FirstCode(lens, 5) == 0
  {
    forall l: nat ensures BlCount(lens, l) == if l == 5 then 30 else 0 {
      FixedDistCounts(lens, |lens|, l);
    }
    Doubling(lens, 0, 4);
    ShlZero(4);
    Doubling(lens, 5, 10);
    KraftIsUsed(lens);
  }

  lemma FixedCodeValue(lens: seq<nat>, s: nat, l: nat)
    requires lens == FixedLL() && s < 288 && l == lens[s]
    ensures FirstCode(lens, l) + Count(lens, l, s) == LLCode(s)
  {
    FixedSpace(lens);
    FixedCounts(lens, s, l);
  }

  /** The encoder's table holds the canonical code of every literal/length symbol. */
  lemma FixedCode(lens: seq<nat>, s: nat)
    requires lens == FixedLL() && s < 288
    ensures Fits(lens) && lens[s] == LLBits(s) && LLCode(s) < Pow2(LLBits(s))
    ensures CodeBits(lens, s) == Msb(LLCode(s), LLBits(s))
  {
    var l := lens[s];
    FixedSpace(lens);
    FixedCodeValue(lens, s, l);
    CodeBound(lens, s);
  }

  /** Distance symbols are sent as their own five-bit value. */
  lemma FixedDistCode(lens: seq<nat>, s: nat)
    requires lens == FixedDist() && s < 30
    ensures Fits(lens) && lens[s] == 5 && s < Pow2(5)
    ensures CodeBits(lens, s) == Msb(s, 5)
  {
    FixedDistSpace(lens);
    FixedDistCounts(lens, s, 5);
  }

  // ---- Splitting a length or a distance into symbol and extra bits ----

  /** The index of the largest base not above `v`, 0 when there is none. */
  function SymbolOf(base: seq<nat>, v: nat, n: nat): (i: nat)
    requires n <= |base|
    ensures n > 0 ==> i < n && forall j :: i < j < n ==> v < base[j]
    ensures n > 0 && base[0] <= v ==> base[i] <= v
  {
    if n == 0 then 0 else if v >= base[n - 1] then n - 1 else SymbolOf(base, v, n - 1)
  }

  method FindSymbol(base: seq<nat>, v: nat) returns (i: nat)
    ensures i == SymbolOf(base, v, |base|)
  {
    for k := |base| downto 0
      invariant SymbolOf(base, v, |base|) == SymbolOf(base, v, k)
    {
      if v >= base[k] {
        return k;
      }
    }
    i := 0;
  }

  lemma LengthSplits(len: nat, i: nat)
    requires 3 <= len <= 258 && i == SymbolOf(LEN_BASE, len, |LEN_BASE|)
    ensures LEN_BASE[i] <= len < LEN_BASE[i] + Pow2(LEN_XTRA[i]) && LEN_XTRA[i] <= 5
  {
    assert Pow2(0) == 1 && Pow2(1) == 2 && Pow2(2) == 4 && Pow2(3) == 8 && Pow2(4) == 16 && Pow2(5) == 32;
    if i < 28 { assert len < LEN_BASE[i + 1]; }
  }

  lemma DistanceSplits(dist: nat, i: nat)
    requires 1 <= dist <= 32768 && i == SymbolOf(DIST_BASE, dist, |DIST_BASE|)
    ensures DIST_BASE[i] <= dist < DIST_BASE[i] + Pow2(DIST_XTRA[i]) && DIST_XTRA[i] <= 13
  {
    assert Pow2(0) == 1 && Pow2(1) == 2 && Pow2(2) == 4 && Pow2(3) == 8 && Pow2(4) == 16 && Pow2(5) == 32;
    assert Pow2(6) == 64 && Pow2(7) == 128 && Pow2(8) == 256 && Pow2(9) == 512 && Pow2(10) == 1024;
    assert Pow2(11) == 2048 && Pow2(12) == 4096 && Pow2(13) == 8192;
    if i < 29 { assert dist < DIST_BASE[i + 1]; }
  }
}
