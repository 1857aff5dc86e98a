/** CRC-32 by table (section 8 of RFC 1952), proved equal to division one bit at a time. */
module Crc32 {
  import opened Bits

  const POLYNOMIAL: nat := 0xEDB8_8320
  const ALL_ONES: nat := 0xFFFF_FFFF

  /** One step of the register: shift, and divide by the reflected polynomial when a one falls out. */
  function Step(crc: nat): nat
  {
    if crc % 2 == 1 then Xor(crc / 2, POLYNOMIAL) else crc / 2
  }

  function Steps(crc: nat, n: nat): nat
    decreases n
  {
    if n == 0 then crc else Steps(Step(crc), n - 1)
  }

  // ---- One bit at a time ----

  /** One bit of the message enters the register. */
  function BitStep(crc: nat, bit: bool): nat
  {
    if (crc % 2 == 1) != bit then Xor(crc / 2, POLYNOMIAL) else crc / 2
  }

  function Divide(crc: nat, bits: seq<bool>): nat
    decreases |bits|
  {
    if bits == [] then crc else Divide(BitStep(crc, bits[0]), bits[1..])
  }

  /** The checksum as the standard defines it: the remainder of the whole bit stream, complemented. */
  function Checksum(data: seq<byte>): nat
  {
    Xor(Divide(ALL_ONES, BytesToBits(data)), ALL_ONES)
  }

  // ---- The steps are linear ----

  lemma StepLinear(x: nat, y: nat)
    ensures Step(Xor(x, y)) == Xor(Step(x), Step(y))
  {
    var p, a, b := POLYNOMIAL, x / 2, y / 2;
    XorParity(x, y);
    XorRegroup(a, b, p);
    XorRegroup(a, p, b);
    XorSwap(b, p);
    XorRegroup(Xor(a, p), b, p);
    XorRegroup(Xor(a, b), p, p);
    XorTwice(Xor(a, b), p);
    XorRegroup(a, p, Xor(b, p));
    XorRegroup(p, b, p);
    XorSwap(p, b);
    XorTwice(b, p);
  }

  lemma {:induction false} StepsLinear(x: nat, y: nat, n: nat)
    ensures Steps(Xor(x, y), n) == Xor(Steps(x, n), Steps(y, n))
    decreases n
  {
    if n > 0 {
      StepLinear(x, y);
      StepsLinear(Step(x), Step(y), n - 1);
    }
  }

  /** A register whose low bits are clear is only shifted. */
  lemma {:induction false} ShiftSteps(h: nat, n: nat)
    ensures Steps(Shl(h, n), n) == h
  {
    if n > 0 { ShiftSteps(h, n - 1); }
  }

  /** As many steps as the low word has bits: the low word's own steps, and the rest shifted down. */
  lemma LookupIsSteps(x: nat, n: nat)
    ensures Steps(x, n) == Xor(Steps(And(x, Pow2(n) - 1), n), Shr(x, n))
  {
    var low, high := And(x, Pow2(n) - 1), Shr(x, n);
    SplitWord(x, n);
    XorDisjoint(low, high, n);
    StepsLinear(low, Shl(high, n), n);
    ShiftSteps(high, n);
  }

  lemma {:induction false} ShrXor(x: nat, b: nat, n: nat)
    requires b < Pow2(n)
    ensures Shr(Xor(x, b), n) == Shr(x, n)
  {
    if n == 0 {
      XorZero(x);
    } else {
      XorParity(x, b);
      ShrXor(x / 2, b / 2, n - 1);
    }
  }

  // ---- A byte at a time ----

  lemma BitEnters(crc: nat, b: nat)
    ensures Step(Xor(crc, b)) == Xor(BitStep(crc, b % 2 == 1), b / 2)
  {
    var c, p := crc / 2, POLYNOMIAL;
    XorParity(crc, b);
    XorRegroup(c, b / 2, p);
    XorRegroup(c, p, b / 2);
    XorSwap(b / 2, p);
  }

  /** Feeding the bits of a word one by one does the same as folding the word in first. */
  lemma {:induction false} DivideWord(crc: nat, b: nat, n: nat)
    requires b < Pow2(n)
    ensures Divide(crc, Lsb(b, n)) == Steps(Xor(crc, b), n)
    decreases n
  {
    if n == 0 {
      XorZero(crc);
    } else {
      BitEnters(crc, b);
      DivideWord(BitStep(crc, b % 2 == 1), b / 2, n - 1);
      assert Lsb(b, n)[1..] == Lsb(b / 2, n - 1);
    }
  }

  lemma {:induction false} DivideAppend(crc: nat, a: seq<bool>, b: seq<bool>)
    ensures Divide(crc, a + b) == Divide(Divide(crc, a), b)
    decreases |a|
  {
    if a == [] {
      assert a + b == b;
    } else {
      assert (a + b)[1..] == a[1..] + b;
      DivideAppend(BitStep(crc, a[0]), a[1..], b);
    }
  }

  /** One round of the table loop divides by the eight bits of one byte. */
  lemma ByteStep(crc: nat, b: byte)
    ensures Xor(Steps(And(Xor(crc, b), 0xFF), 8), Shr(crc, 8)) == Divide(crc, Lsb(b, 8))
  {
    var n := 8;
    assert Pow2(8) == 0x100;
    LookupIsSteps(Xor(crc, b), n);
    ShrXor(crc, b, n);
    DivideWord(crc, b, n);
  }

  /** The register never outgrows its 32 bits. */
  lemma {:induction false} DivideBound(crc: nat, bits: seq<bool>, n: nat)
    requires crc < Pow2(n) && POLYNOMIAL < Pow2(n)
    ensures Divide(crc, bits) < Pow2(n)
    decreases |bits|
  {
    if bits != [] {
      XorBound(crc / 2, POLYNOMIAL, n);
      DivideBound(BitStep(crc, bits[0]), bits[1..], n);
    }
  }

  // ---- The program ----

  /** The table of eight-step remainders. */
  method MakeTable() returns (t: array<nat>)
    ensures t.Length == 256
    ensures forall i :: 0 <= i < 256 ==> t[i] == Steps(i, 8)
  {
    t := new nat[256];
    for i := 0 to 256
      invariant forall k :: 0 <= k < i ==> t[k] == Steps(k, 8)
    {
      var crc := Remainder(i, 8);
      t[i] := crc;
    }
  }

  method Remainder(i: nat, n: nat) returns (crc: nat)
    ensures crc == Steps(i, n)
  {
    crc := i;
    for j := 0 to n
      invariant Steps(crc, n - j) == Steps(i, n)
    {
      LowBit(crc);
      if And(crc, 1) != 0 {
        crc := Xor(Shr(crc, 1), POLYNOMIAL);
      } else {
        crc := Shr(crc, 1);
      }
    }
  }

  lemma LowBit(x: nat)
    ensures And(x, 1) == x % 2 && Shr(x, 1) == x / 2
  {
    if x != 0 { AndZero(x / 2); }
  }

  /** The checksum, one table lookup a byte. */
  method Compute(table: array<nat>, data: seq<byte>) returns (r: nat)
    requires table.Length == 256 && forall i :: 0 <= i < 256 ==> table[i] == Steps(i, 8)
    ensures r == Checksum(data)
  {
    var crc := ALL_ONES;
    assert data[..0] == [];
    for k := 0 to |data|
      invariant crc == Divide(ALL_ONES, BytesToBits(data[..k]))
    {
      ByteStep(crc, data[k]);
      IndexFits(Xor(crc, data[k]));
      DivideAppend(ALL_ONES, BytesToBits(data[..k]), Lsb(data[k], 8));
      assert data[..k + 1] == data[..k] + [data[k]];
      BytesToBitsPush(data[..k], data[k]);
      crc := Xor(table[And(Xor(crc, data[k]), 0xFF)], Shr(crc, 8));
    }
    assert data[..|data|] == data;
    r := Xor(crc, ALL_ONES);
  }

  lemma IndexFits(x: nat)
    ensures And(x, 0xFF) < 256
  {
    var n := 8;
    assert Pow2(8) == 256;
    SplitWord(x, n);
  }
}
