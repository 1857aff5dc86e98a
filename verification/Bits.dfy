/** Bytes, bit sequences and the word-level bit operations both codecs use. */
module Bits {

  type byte = x: int | 0 <= x < 256

  datatype Option<+T> = None | Some(value: T)

  function Pow2(n: nat): (r: nat)
    ensures r >= 1
  {
    if n == 0 then 1 else 2 * Pow2(n - 1)
  }

  function Bit(b: bool): (r: nat)
    ensures r == 1 <==> b
    ensures r == 0 <==> !b
  {
    if b then 1 else 0
  }

  /** The `n` low bits of `v`, least significant first: how DEFLATE packs integers. */
  function Lsb(v: nat, n: nat): (s: seq<bool>)
    ensures |s| == n
  {
    if n == 0 then [] else [v % 2 == 1] + Lsb(v / 2, n - 1)
  }

  /** The `n` low bits of `v`, most significant first: how DEFLATE packs Huffman codes. */
  function Msb(v: nat, n: nat): (s: seq<bool>)
    ensures |s| == n
  {
    if n == 0 then [] else Msb(v / 2, n - 1) + [v % 2 == 1]
  }

  function FromLsb(s: seq<bool>): (v: nat)
  {
    if s == [] then 0 else Bit(s[0]) + 2 * FromLsb(s[1..])
  }

  function FromMsb(s: seq<bool>): (v: nat)
  {
    if s == [] then 0 else 2 * FromMsb(s[..|s| - 1]) + Bit(s[|s| - 1])
  }

  function Zeros(n: nat): (s: seq<bool>)
    ensures |s| == n
  {
    seq(n, _ => false)
  }

  /** The bit stream a byte string stands for (section 3.1.1 of RFC 1951). */
  function BytesToBits(bs: seq<byte>): (s: seq<bool>)
    ensures |s| == 8 * |bs|
  {
    if bs == [] then [] else Lsb(bs[0], 8) + BytesToBits(bs[1..])
  }

  /** The byte string for a bit stream, zero-padded to a whole byte. */
  function Pack(bits: seq<bool>): (bs: seq<byte>)
    ensures |bits| <= 8 * |bs| < |bits| + 8
  {
    if bits == [] then []
    else if |bits| < 8 then FromLsbBound(bits); Pow2Mono(|bits|, 8); [FromLsb(bits)]
    else FromLsbBound(bits[..8]); [FromLsb(bits[..8])] + Pack(bits[8..])
  }

  /** `bs` is `bits` and at most seven zero bits. */
  ghost predicate Packs(bs: seq<byte>, bits: seq<bool>)
  {
    |bits| <= 8 * |bs| < |bits| + 8 && BytesToBits(bs) == bits + Zeros(8 * |bs| - |bits|)
  }

  // ---- Word operations, bit by bit ----

  function Or(x: nat, y: nat): nat
    decreases x + y
  {
    if x == 0 && y == 0 then 0
    else Bit(x % 2 == 1 || y % 2 == 1) + 2 * Or(x / 2, y / 2)
  }

  function And(x: nat, y: nat): nat
    decreases x + y
  {
    if x == 0 && y == 0 then 0
    else Bit(x % 2 == 1 && y % 2 == 1) + 2 * And(x / 2, y / 2)
  }

  function Xor(x: nat, y: nat): nat
    decreases x + y
  {
    if x == 0 && y == 0 then 0
    else Bit((x % 2 == 1) != (y % 2 == 1)) + 2 * Xor(x / 2, y / 2)
  }

  function Shl(x: nat, n: nat): nat
  {
    if n == 0 then x else 2 * Shl(x, n - 1)
  }

  function Shr(x: nat, n: nat): nat
  {
    if n == 0 then x else Shr(x / 2, n - 1)
  }

  // ---- Lemmas ----

  lemma Assoc<T>(a: seq<T>, b: seq<T>, c: seq<T>)
    ensures (a + b) + c == a + (b + c)
  {
  }

  lemma {:induction false} Pow2Mono(m: nat, n: nat)
    requires m <= n
    ensures Pow2(m) <= Pow2(n)
  {
    if m < n { Pow2Mono(m, n - 1); }
  }

  lemma SevenDoublings(n: nat)
    ensures Pow2(n + 7) == 128 * Pow2(n)
  {
    assert Pow2(n + 1) == 2 * Pow2(n) && Pow2(n + 2) == 2 * Pow2(n + 1) && Pow2(n + 3) == 2 * Pow2(n + 2);
    assert Pow2(n + 4) == 2 * Pow2(n + 3) && Pow2(n + 5) == 2 * Pow2(n + 4) && Pow2(n + 6) == 2 * Pow2(n + 5);
  }

  lemma Powers()
    ensures Pow2(14) == 0x4000 && Pow2(15) == 0x8000
  {
    SevenDoublings(0);
    SevenDoublings(7);
    assert Pow2(15) == 2 * Pow2(14);
  }

  lemma {:induction false} ShlOne(n: nat)
    ensures Shl(1, n) == Pow2(n)
  {
    if n != 0 { ShlOne(n - 1); }
  }

  lemma {:induction false} ShlZero(n: nat)
    ensures Shl(0, n) == 0
  {
    if n != 0 { ShlZero(n - 1); }
  }

  lemma {:induction false} ShlMono(x: nat, y: nat, n: nat)
    ensures x <= y ==> Shl(x, n) <= Shl(y, n)
    ensures x < y ==> Shl(x, n) < Shl(y, n)
  {
    if n != 0 { ShlMono(x, y, n - 1); }
  }

  lemma {:induction false} ShlPow2(m: nat, n: nat)
    ensures Shl(Pow2(m), n) == Pow2(m + n)
  {
    if n != 0 { ShlPow2(m, n - 1); }
  }

  lemma {:induction false} FromLsbBound(s: seq<bool>)
    ensures FromLsb(s) < Pow2(|s|)
  {
    if s != [] { FromLsbBound(s[1..]); }
  }

  lemma {:induction false} FromMsbBound(s: seq<bool>)
    ensures FromMsb(s) < Pow2(|s|)
  {
    if s != [] { FromMsbBound(s[..|s| - 1]); }
  }

  /** Reading back what was packed least significant bit first. */
  lemma {:induction false} LsbRoundTrip(v: nat, n: nat)
    requires v < Pow2(n)
    ensures FromLsb(Lsb(v, n)) == v
  {
    if n != 0 {
      LsbRoundTrip(v / 2, n - 1);
      assert Lsb(v, n)[1..] == Lsb(v / 2, n - 1);
    }
  }

  lemma {:induction false} FromLsbRoundTrip(s: seq<bool>)
    ensures Lsb(FromLsb(s), |s|) == s
  {
    if s != [] {
      FromLsbRoundTrip(s[1..]);
      assert FromLsb(s) / 2 == FromLsb(s[1..]);
      assert [s[0]] + s[1..] == s;
    }
  }

  lemma {:induction false} MsbRoundTrip(v: nat, n: nat)
    requires v < Pow2(n)
    ensures FromMsb(Msb(v, n)) == v
  {
    if n != 0 {
      MsbRoundTrip(v / 2, n - 1);
      assert Msb(v, n)[..n - 1] == Msb(v / 2, n - 1);
    }
  }

  lemma {:induction false} FromMsbRoundTrip(s: seq<bool>)
    ensures Msb(FromMsb(s), |s|) == s
  {
    if s != [] {
      FromMsbRoundTrip(s[..|s| - 1]);
      assert FromMsb(s) / 2 == FromMsb(s[..|s| - 1]);
      assert s[..|s| - 1] + [s[|s| - 1]] == s;
    }
  }

  /** The first `m` of `m + n` MSB-first bits are the code shifted right by `n`. */
  lemma {:induction false} MsbPrefix(v: nat, m: nat, n: nat)
    ensures Msb(v, m + n)[..m] == Msb(Shr(v, n), m)
  {
    if n != 0 {
      MsbPrefix(v / 2, m, n - 1);
      assert Msb(v, m + n)[..m] == Msb(v / 2, m + n - 1)[..m];
    }
  }

  /** A word above another packs as the low word's bits, then the high word's. */
  lemma {:induction false} LsbJoin(lo: nat, hi: nat, m: nat, n: nat)
    requires lo < Pow2(m)
    ensures Lsb(lo + Shl(hi, m), m + n) == Lsb(lo, m) + Lsb(hi, n)
    ensures hi < Pow2(n) ==> lo + Shl(hi, m) < Pow2(m + n)
  {
    if m == 0 {
      assert Lsb(hi, n) == [] + Lsb(hi, n);
    } else {
      LsbJoin(lo / 2, hi, m - 1, n);
      var w := lo / 2 + Shl(hi, m - 1);
      assert (lo + Shl(hi, m)) / 2 == w && (lo + Shl(hi, m)) % 2 == lo % 2;
      Assoc([lo % 2 == 1], Lsb(lo / 2, m - 1), Lsb(hi, n));
    }
  }

  /** Masking and shifting split a word into its low `n` bits and the rest. */
  lemma {:induction false} SplitWord(v: nat, n: nat)
    ensures And(v, Pow2(n) - 1) < Pow2(n)
    ensures v == And(v, Pow2(n) - 1) + Shl(Shr(v, n), n)
  {
    if n == 0 {
      AndZero(v);
    } else {
      SplitWord(v / 2, n - 1);
      AndOdd(v, Pow2(n - 1) - 1, Pow2(n) - 1);
    }
  }

  lemma {:induction false} AndSmall(v: nat, n: nat)
    requires v < Pow2(n)
    ensures And(v, Pow2(n) - 1) == v
  {
    if n == 0 {
      AndZero(v);
    } else {
      AndSmall(v / 2, n - 1);
      AndOdd(v, Pow2(n - 1) - 1, Pow2(n) - 1);
    }
  }

  lemma {:induction false} ShrBound(v: nat, n: nat, m: nat)
    requires v < Pow2(n + m)
    ensures Shr(v, n) < Pow2(m)
  {
    if n != 0 { ShrBound(v / 2, n - 1, m); }
  }

  lemma TakeLow(v: nat, n: nat, m: nat)
    requires v < Pow2(n + m)
    ensures And(v, Pow2(n) - 1) < Pow2(n) && Shr(v, n) < Pow2(m)
    ensures Lsb(v, n + m) == Lsb(And(v, Pow2(n) - 1), n) + Lsb(Shr(v, n), m)
  {
    SplitWord(v, n);
    ShrBound(v, n, m);
    LsbJoin(And(v, Pow2(n) - 1), Shr(v, n), n, m);
  }

  /** Oring a word above the bits already held is placing it next to them. */
  lemma {:induction false} OrDisjoint(a: nat, v: nat, n: nat)
    requires a < Pow2(n)
    ensures Or(a, Shl(v, n)) == a + Shl(v, n)
  {
    if n == 0 {
      OrZero(v);
    } else {
      OrDisjoint(a / 2, v, n - 1);
      OrStep(a, Shl(v, n), Shl(v, n - 1));
    }
  }

  lemma OrStep(a: nat, x: nat, w: nat)
    requires x == 2 * w
    ensures Or(a, x) == a % 2 + 2 * Or(a / 2, w)
  {
    assert x / 2 == w && x % 2 == 0;
  }

  lemma {:induction false} OrZero(v: nat)
    ensures Or(0, v) == v
  {
    if v != 0 { OrZero(v / 2); }
  }

  lemma {:induction false} OrDisjointLsb(a: nat, v: nat, n: nat, len: nat)
    requires a < Pow2(n) && v < Pow2(len)
    ensures Or(a, Shl(v, n)) < Pow2(n + len)
    ensures Lsb(Or(a, Shl(v, n)), n + len) == Lsb(a, n) + Lsb(v, len)
  {
    OrDisjoint(a, v, n);
    LsbJoin(a, v, n, len);
  }

  lemma AndOdd(x: nat, q: nat, y: nat)
    requires y == 2 * q + 1
    ensures And(x, y) == x % 2 + 2 * And(x / 2, q)
  {
    assert y / 2 == q && y % 2 == 1;
  }

  lemma {:induction false} AndZero(x: nat)
    ensures And(x, 0) == 0
  {
    if x != 0 { AndZero(x / 2); }
  }

  lemma {:induction false} XorBound(x: nat, y: nat, n: nat)
    requires x < Pow2(n) && y < Pow2(n)
    ensures Xor(x, y) < Pow2(n)
  {
    if n != 0 { XorBound(x / 2, y / 2, n - 1); }
  }

  lemma {:induction false} XorTwice(x: nat, y: nat)
    ensures Xor(Xor(x, y), y) == x
    decreases x + y
  {
    if x != 0 || y != 0 {
      XorTwice(x / 2, y / 2);
    }
  }

  lemma XorParity(x: nat, y: nat)
    ensures Xor(x, y) % 2 == Bit((x % 2 == 1) != (y % 2 == 1)) && Xor(x, y) / 2 == Xor(x / 2, y / 2)
  {
    if x == 0 && y == 0 { assert Xor(0, 0) == 0; }
  }

  lemma {:induction false} XorZero(x: nat)
    ensures Xor(x, 0) == x
  {
    if x != 0 { XorZero(x / 2); }
  }

  lemma {:induction false} XorSwap(x: nat, y: nat)
    ensures Xor(x, y) == Xor(y, x)
    decreases x + y
  {
    if x != 0 || y != 0 { XorSwap(x / 2, y / 2); }
  }

  lemma {:induction false} XorRegroup(x: nat, y: nat, z: nat)
    ensures Xor(Xor(x, y), z) == Xor(x, Xor(y, z))
    decreases x + y + z
  {
    XorParity(x, y);
    XorParity(y, z);
    if x != 0 || y != 0 || z != 0 {
      XorRegroup(x / 2, y / 2, z / 2);
      XorParity(Xor(x, y), z);
      XorParity(x, Xor(y, z));
    }
  }

  /** Words without common bits: exclusive or is addition. */
  lemma {:induction false} XorDisjoint(a: nat, v: nat, n: nat)
    requires a < Pow2(n)
    ensures Xor(a, Shl(v, n)) == a + Shl(v, n)
  {
    if n == 0 {
      XorSwap(0, v);
      XorZero(v);
    } else {
      XorDisjoint(a / 2, v, n - 1);
      XorParity(a, Shl(v, n));
    }
  }

  lemma {:induction false} BytesToBitsAppend(a: seq<byte>, b: seq<byte>)
    ensures BytesToBits(a + b) == BytesToBits(a) + BytesToBits(b)
  {
    if a == [] {
      assert a + b == b;
    } else {
      BytesToBitsAppend(a[1..], b);
      assert (a + b)[1..] == a[1..] + b;
      Assoc(Lsb(a[0], 8), BytesToBits(a[1..]), BytesToBits(b));
    }
  }

  lemma BytesToBitsPush(a: seq<byte>, b: byte)
    ensures BytesToBits(a + [b]) == BytesToBits(a) + Lsb(b, 8)
  {
    BytesToBitsAppend(a, [b]);
    assert BytesToBits([b]) == Lsb(b, 8) + [];
  }

  /** Packing loses nothing but adds up to seven zero bits. */
  lemma {:induction false} PackRoundTrip(bits: seq<bool>)
    ensures Packs(Pack(bits), bits)
  {
    if bits == [] {
    } else if |bits| < 8 {
      FromLsbBound(bits);
      Pow2Mono(|bits|, 8);
      PackShort(bits, FromLsb(bits));
    } else {
      var head, tail := bits[..8], bits[8..];
      PackRoundTrip(tail);
      FromLsbRoundTrip(head);
      assert Pack(bits)[1..] == Pack(tail);
      assert bits == head + tail;
      Assoc(head, tail, Zeros(8 * |Pack(tail)| - |tail|));
    }
  }

  lemma PackShort(bits: seq<bool>, v: byte)
    requires |bits| < 8 && v == FromLsb(bits)
    ensures BytesToBits([v]) == bits + Zeros(8 - |bits|)
  {
    FromLsbBound(bits);
    FromLsbRoundTrip(bits);
    LsbPad(v, |bits|, 8 - |bits|);
    BytesToBitsPush([], v);
    assert [] + [v] == [v];
  }

  lemma {:induction false} LsbPad(v: nat, n: nat, k: nat)
    requires v < Pow2(n)
    ensures Lsb(v, n + k) == Lsb(v, n) + Zeros(k)
  {
    if n != 0 {
      LsbPad(v / 2, n - 1, k);
    } else if k != 0 {
      LsbPad(v, n, k - 1);
    }
  }

  /** A byte string is determined by its bits, so `Pack` is the only padding to bytes. */
  lemma {:induction false} BytesToBitsInjective(a: seq<byte>, b: seq<byte>)
    requires BytesToBits(a) == BytesToBits(b)
    ensures a == b
  {
    if a == [] {
      assert |BytesToBits(b)| == 0;
    } else {
      assert |BytesToBits(b)| == 8 * |a|;
      assert Lsb(a[0], 8) == BytesToBits(a)[..8] == BytesToBits(b)[..8] == Lsb(b[0], 8);
      LsbRoundTrip(a[0], 8);
      LsbRoundTrip(b[0], 8);
      assert BytesToBits(a[1..]) == BytesToBits(a)[8..] == BytesToBits(b)[8..] == BytesToBits(b[1..]);
      BytesToBitsInjective(a[1..], b[1..]);
      assert a == [a[0]] + a[1..] && b == [b[0]] + b[1..];
    }
  }

  lemma SameLength(a: nat, b: nat, n: nat)
    requires n <= 8 * a < n + 8 && n <= 8 * b < n + 8
    ensures a == b
  {
  }

  lemma SamePacking(a: seq<byte>, b: seq<byte>, bits: seq<bool>)
    requires Packs(a, bits) && Packs(b, bits)
    ensures a == b
  {
    SameLength(|a|, |b|, |bits|);
    BytesToBitsInjective(a, b);
  }

  /** There is only one way to pack a bit stream. */
  lemma PackUnique(bs: seq<byte>, bits: seq<bool>)
    requires Packs(bs, bits)
    ensures bs == Pack(bits)
  {
    PackRoundTrip(bits);
    SamePacking(bs, Pack(bits), bits);
  }
}
