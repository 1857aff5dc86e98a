/** Base64 (section 4 of RFC 4648): two encoders, one decoder. */
module Base64 {
  import opened Bits

  const PAD: byte := 0x3D
  const INVALID: nat := 0xFF

  /** The alphabet. */
  function Letter(v: nat): byte
    requires v < 64
  {
    if v < 26 then 0x41 + v
    else if v < 52 then 0x61 + v - 26
    else if v < 62 then 0x30 + v - 52
    else if v == 62 then 0x2B else 0x2F
  }

  /** The value of a letter, as the decoding table has it. */
  function Lookup(c: byte): (v: nat)
    ensures v < 64 || v == INVALID
  {
    if 0x41 <= c <= 0x5A then c - 0x41
    else if 0x61 <= c <= 0x7A then c - 0x61 + 26
    else if 0x30 <= c <= 0x39 then c - 0x30 + 52
    else if c == 0x2B then 62
    else if c == 0x2F then 63
    else INVALID
  }

  /** The alphabet has 64 different letters, none of them the padding. */
  lemma AlphabetExact(c: byte, v: nat)
    requires v < 64
    ensures Lookup(c) == v <==> c == Letter(v)
    ensures Letter(v) != PAD
  {
  }

  const CAPITALS: string := "ABCDEFGHIJKLMNOPQRSTUVWXYZ"
  const SMALL_LETTERS: string := "abcdefghijklmnopqrstuvwxyz"
  const THE_REST: string := "0123456789+/"

  /** The letters are those of the standard's table, in its order. */
  lemma StandardAlphabet(v: nat)
    requires v < 64
    ensures Letter(v) ==
      (if v < 26 then CAPITALS[v] else if v < 52 then SMALL_LETTERS[v - 26] else THE_REST[v - 52]) as int
  {
  }

  // ---- The code ----

  /** The bit string of a byte string, most significant bits first. */
  function MsbBits(x: seq<byte>): seq<bool>
  {
    if x == [] then [] else Msb(x[0], 8) + MsbBits(x[1..])
  }

  function LetterOf(bits: seq<bool>): byte
    requires |bits| == 6
  {
    FromMsbBound(bits);
    assert Pow2(6) == 64;
    Letter(FromMsb(bits))
  }

  /** One letter for each six bits; the last bits are filled up with zeros. */
  function Sixes(bits: seq<bool>): seq<byte>
  {
    if bits == [] then []
    else if |bits| < 6 then [LetterOf(bits + Zeros(6 - |bits|))]
    else [LetterOf(bits[..6])] + Sixes(bits[6..])
  }

  function Padding(n: nat): seq<byte>
  {
    if n >= 3 then Padding(n - 3) else if n == 1 then [PAD, PAD] else if n == 2 then [PAD] else []
  }

  /** The code of a byte string, as the standard defines it. */
  function Encode(x: seq<byte>): seq<byte>
  {
    Sixes(MsbBits(x)) + Padding(|x|)
  }

  lemma {:induction false} MsbBitsAppend(x: seq<byte>, y: seq<byte>)
    ensures MsbBits(x + y) == MsbBits(x) + MsbBits(y)
  {
    if x == [] {
      assert x + y == y;
    } else {
      assert (x + y)[1..] == x[1..] + y;
      MsbBitsAppend(x[1..], y);
      Assoc(Msb(x[0], 8), MsbBits(x[1..]), MsbBits(y));
    }
  }

  lemma {:induction false} MsbBitsLength(x: seq<byte>)
    ensures |MsbBits(x)| == 8 * |x|
  {
    if x != [] { MsbBitsLength(x[1..]); }
  }

  lemma {:induction false} SixesAppend(a: seq<bool>, b: seq<bool>, k: nat)
    requires |a| == 6 * k
    ensures Sixes(a + b) == Sixes(a) + Sixes(b) && |Sixes(a)| == k
    decreases k
  {
    if k == 0 {
      assert a + b == b;
    } else {
      assert (a + b)[..6] == a[..6] && (a + b)[6..] == a[6..] + b;
      SixesAppend(a[6..], b, k - 1);
    }
  }

  /** Whole groups of three bytes are coded on their own. */
  lemma WholeGroups(x: seq<byte>, y: seq<byte>, k: nat)
    requires |x| == 3 * k
    ensures Sixes(MsbBits(x + y)) == Sixes(MsbBits(x)) + Sixes(MsbBits(y)) && |Sixes(MsbBits(x))| == 4 * k
  {
    MsbBitsAppend(x, y);
    MsbBitsLength(x);
    SixesAppend(MsbBits(x), MsbBits(y), 4 * k);
  }

  // ---- One group as one word ----

  /** Three bytes as one word. */
  function Word(a: nat, b: nat, c: nat): nat
  {
    a * 0x1_0000 + b * 0x100 + c
  }

  /** Two fields side by side. */
  lemma {:induction false} MsbJoin(hi: nat, lo: nat, m: nat, n: nat)
    requires lo < Pow2(n)
    ensures Msb(Shl(hi, n) + lo, m + n) == Msb(hi, m) + Msb(lo, n)
    decreases n
  {
    if n == 0 {
      assert Msb(hi, m) + [] == Msb(hi, m);
    } else {
      MsbJoin(hi, lo / 2, m, n - 1);
      Assoc(Msb(hi, m), Msb(lo / 2, n - 1), [lo % 2 == 1]);
    }
  }

  lemma ShlByLiteral(x: nat)
    ensures Shl(x, 6) == 64 * x && Shl(x, 8) == 256 * x
  {
    assert Shl(x, 1) == 2 * x;
    assert Shl(x, 2) == 2 * Shl(x, 1) && Shl(x, 3) == 2 * Shl(x, 2) && Shl(x, 4) == 2 * Shl(x, 3);
    assert Shl(x, 5) == 2 * Shl(x, 4) && Shl(x, 6) == 2 * Shl(x, 5) && Shl(x, 7) == 2 * Shl(x, 6);
  }

  lemma ShrSix(v: nat)
    ensures Shr(v, 6) == v / 64
  {
    assert Shr(v, 6) == Shr(v / 2, 5) && Shr(v / 2, 5) == Shr(v / 2 / 2, 4);
    assert Shr(v / 2 / 2, 4) == Shr(v / 2 / 2 / 2, 3) && Shr(v / 2 / 2 / 2, 3) == Shr(v / 2 / 2 / 2 / 2, 2);
    assert Shr(v / 2 / 2 / 2 / 2, 2) == Shr(v / 2 / 2 / 2 / 2 / 2, 1);
    assert Shr(v / 2 / 2 / 2 / 2 / 2, 1) == Shr(v / 2 / 2 / 2 / 2 / 2 / 2, 0);
  }

  lemma ThreeBytes(a: byte, b: byte, c: byte, n: nat)
    requires n == 8
    ensures MsbBits([a, b, c]) == (Msb(a, n) + Msb(b, n)) + Msb(c, n)
  {
    assert [a, b, c][1..] == [b, c] && [b, c][1..] == [c] && [c][1..] == [];
    assert MsbBits([c]) == Msb(c, n) + [];
    Assoc(Msb(a, n), Msb(b, n), Msb(c, n));
  }

  lemma ByteBehind(hi: nat, lo: byte, m: nat, n: nat)
    requires n == 8
    ensures Msb(hi * 256 + lo, m + n) == Msb(hi, m) + Msb(lo, n)
  {
    assert Pow2(8) == 256;
    ShlByLiteral(hi);
    MsbJoin(hi, lo, m, n);
  }

  lemma WordBitsBy(a: byte, b: byte, c: byte, n: nat)
    requires n == 8
    ensures MsbBits([a, b, c]) == Msb(Word(a, b, c), n + n + n)
  {
    ByteBehind(a, b, n, n);
    ByteBehind(a * 256 + b, c, n + n, n);
    ThreeBytes(a, b, c, n);
  }

  lemma WordBits(a: byte, b: byte, c: byte)
    ensures MsbBits([a, b, c]) == Msb(Word(a, b, c), 24)
  {
    WordBitsBy(a, b, c, 8);
  }

  lemma {:induction false} MsbSuffix(v: nat, m: nat, n: nat)
    ensures Msb(v, m + n)[m..] == Msb(v, n)
  {
    if n != 0 {
      MsbSuffix(v / 2, m, n - 1);
      assert Msb(v, m + n)[m..] == Msb(v / 2, m + n - 1)[m..] + [v % 2 == 1];
    }
  }

  lemma {:induction false} LowBits(v: nat, n: nat)
    ensures FromMsb(Msb(v, n)) == v - Shl(Shr(v, n), n)
  {
    if n != 0 {
      LowBits(v / 2, n - 1);
      assert Msb(v, n)[..n - 1] == Msb(v / 2, n - 1);
    }
  }

  lemma LowLetter(v: nat)
    ensures LetterOf(Msb(v, 6)) == Letter(v % 64)
  {
    LowBits(v, 6);
    ShrSix(v);
    ShlByLiteral(v / 64);
  }

  /** The low six bits of a word make its last letter. */
  lemma LastSix(v: nat, k: nat)
    ensures Sixes(Msb(v, 6 * k + 6)) == Sixes(Msb(v / 64, 6 * k)) + [Letter(v % 64)]
  {
    var bits := Msb(v, 6 * k + 6);
    MsbPrefix(v, 6 * k, 6);
    MsbSuffix(v, 6 * k, 6);
    ShrSix(v);
    assert bits == bits[..6 * k] + bits[6 * k..];
    SixesAppend(Msb(v / 64, 6 * k), Msb(v, 6), k);
    LowLetter(v);
    assert Msb(v, 6)[..6] == Msb(v, 6) && Msb(v, 6)[6..] == [];
  }

  /** The four letters of a 24-bit word, each shifted out on its own. */
  function LettersOf(n: nat): seq<byte>
  {
    [Letter(n / 0x4_0000 % 64), Letter(n / 0x1000 % 64), Letter(n / 0x40 % 64), Letter(n % 64)]
  }

  lemma FourLetters(n: nat)
    ensures Sixes(Msb(n, 24)) == LettersOf(n)
  {
    var p, q, r := n / 64, n / 0x1000, n / 0x4_0000;
    assert q == p / 64 && r == q / 64;
    LastSix(n, 3);
    LastSix(p, 2);
    LastSix(q, 1);
    LastSix(r, 0);
    assert Sixes(Msb(r / 64, 0)) == [];
  }

  lemma GroupLetters(a: byte, b: byte, c: byte)
    ensures Sixes(MsbBits([a, b, c])) == LettersOf(Word(a, b, c))
  {
    WordBits(a, b, c);
    FourLetters(Word(a, b, c));
  }

  /** The bits of a last letter may be filled up beforehand. */
  lemma {:induction false} SixesFill(bits: seq<bool>, k: nat)
    requires 6 * k < |bits| < 6 * k + 6
    ensures Sixes(bits + Zeros(6 * k + 6 - |bits|)) == Sixes(bits)
    decreases k
  {
    var full := bits + Zeros(6 * k + 6 - |bits|);
    if k == 0 {
      assert full[..6] == full && full[6..] == [];
    } else {
      SixesFill(bits[6..], k - 1);
      assert full[..6] == bits[..6] && full[6..] == bits[6..] + Zeros(6 * k + 6 - |bits|);
    }
  }

  lemma {:induction false} MsbOfZero(n: nat)
    ensures Msb(0, n) == Zeros(n)
  {
    if n != 0 {
      MsbOfZero(n - 1);
      assert Zeros(n) == Zeros(n - 1) + [false];
    }
  }

  lemma {:induction false} ZeroBytes(zs: seq<byte>)
    requires forall k :: 0 <= k < |zs| ==> zs[k] == 0
    ensures MsbBits(zs) == Zeros(8 * |zs|)
  {
    if zs != [] {
      var n := 8;
      MsbOfZero(n);
      ZeroBytes(zs[1..]);
      assert Zeros(n) + Zeros(8 * |zs| - n) == Zeros(8 * |zs|);
    }
  }

  lemma FillsToPrefix(bits: seq<bool>, rest: seq<bool>, k: nat, n: nat)
    requires |bits| + n == 6 * k + 6 && 0 < n < 6
    ensures |Sixes(bits)| == k + 1 && Sixes(bits) <= Sixes(bits + (Zeros(n) + rest))
  {
    SixesFill(bits, k);
    SixesAppend(bits + Zeros(n), rest, k + 1);
    Assoc(bits, Zeros(n), rest);
  }

  /** Filling a short group up with zero bytes only adds letters. */
  lemma LeftOverIsPrefix(t: seq<byte>, zs: seq<byte>)
    requires (|t| == 1 || |t| == 2) && |t| + |zs| == 3 && forall k :: 0 <= k < |zs| ==> zs[k] == 0
    ensures |Sixes(MsbBits(t))| == |t| + 1 && Sixes(MsbBits(t)) <= Sixes(MsbBits(t + zs))
  {
    MsbBitsLength(t);
    ZeroBytes(zs);
    MsbBitsAppend(t, zs);
    var n := 6 - 2 * |t|;
    assert Zeros(8 * |zs|) == Zeros(n) + Zeros(8 * |zs| - n);
    FillsToPrefix(MsbBits(t), Zeros(8 * |zs| - n), |t|, n);
  }

  lemma OneLeftOver(a: byte)
    ensures Sixes(MsbBits([a])) == LettersOf(Word(a, 0, 0))[..2]
  {
    assert [a] + [0, 0] == [a, 0, 0];
    LeftOverIsPrefix([a], [0, 0]);
    GroupLetters(a, 0, 0);
  }

  lemma TwoLeftOver(a: byte, b: byte)
    ensures Sixes(MsbBits([a, b])) == LettersOf(Word(a, b, 0))[..3]
  {
    assert [a, b] + [0] == [a, b, 0];
    LeftOverIsPrefix([a, b], [0]);
    GroupLetters(a, b, 0);
  }

  /** One or two bytes left over make one letter more than they are. */
  lemma LeftOver(t: seq<byte>)
    requires |t| == 1 || |t| == 2
    ensures Sixes(MsbBits(t)) == LettersOf(Word(t[0], if |t| == 2 then t[1] else 0, 0))[..|t| + 1]
  {
    if |t| == 1 {
      assert t == [t[0]];
      OneLeftOver(t[0]);
    } else {
      assert t == [t[0], t[1]];
      TwoLeftOver(t[0], t[1]);
    }
  }

  // ---- Decoding ----

  /** The letters without their padding. */
  function Stripped(s: seq<byte>): (r: seq<byte>)
  {
    StripOne(StripOne(s))
  }

  function StripOne(s: seq<byte>): seq<byte>
  {
    if s != [] && s[|s| - 1] == PAD then s[..|s| - 1] else s
  }

  /** Four values as three bytes; what does not fit a byte is cut off. */
  function Three(v0: nat, v1: nat, v2: nat, v3: nat): seq<byte>
    requires v0 < 64 && v1 < 64 && v2 < 64 && v3 < 64
  {
    [v0 * 4 + v1 / 16, v1 % 16 * 16 + v2 / 4, v2 % 4 * 64 + v3]
  }

  /** The values of up to four letters, missing ones counting as zero. */
  function Values(s: seq<byte>): Option<seq<byte>>
    requires 1 <= |s| <= 4
  {
    var v0 := Lookup(s[0]);
    var v1 := if |s| > 1 then Lookup(s[1]) else 0;
    var v2 := if |s| > 2 then Lookup(s[2]) else 0;
    var v3 := if |s| > 3 then Lookup(s[3]) else 0;
    if v0 == INVALID || v1 == INVALID || v2 == INVALID || v3 == INVALID then None else Some(Three(v0, v1, v2, v3))
  }

  /** The bytes of the letters, before the last group is cut to length. */
  function Groups(s: seq<byte>): Option<seq<byte>>
  {
    if s == [] then Some([])
    else if |s| < 4 then
      match Values(s)
      case None => None
      case Some(bytes) => Some(bytes[..if |s| == 1 then 1 else |s| - 1])
    else
      match Values(s[..4])
      case None => None
      case Some(bytes) =>
        match Groups(s[4..])
        case None => None
        case Some(rest) => Some(bytes + rest)
  }

  function Decode(s: seq<byte>): Option<seq<byte>>
  {
    var letters := Stripped(s);
    match Groups(letters)
    case None => None
    case Some(bytes) => Some(if |bytes| > |letters| * 3 / 4 then bytes[..|letters| * 3 / 4] else bytes)
  }

  /** The six-bit fields of a 24-bit word. */
  lemma Fields(a: byte, b: byte, c: byte)
    ensures Word(a, b, c) / 0x4_0000 % 64 == a / 4
    ensures Word(a, b, c) / 0x1000 % 64 == a % 4 * 16 + b / 16
    ensures Word(a, b, c) / 0x40 % 64 == b % 16 * 4 + c / 64
    ensures Word(a, b, c) % 64 == c % 64
  {
    TopField(Word(a, b, c), a / 4, Word(a % 4, b, c));
    SecondField(Word(a, b, c), a / 4, a % 4 * 16 + b / 16, Word(0, b % 16, c));
    ThirdField(Word(a, b, c), a * 16 + b / 16, b % 16 * 4 + c / 64, c % 64);
  }

  lemma TopField(n: nat, q: nat, r: nat)
    requires n == q * 0x4_0000 + r && r < 0x4_0000 && q < 64
    ensures n / 0x4_0000 % 64 == q
  {
  }

  lemma SecondField(n: nat, p: nat, q: nat, r: nat)
    requires n == (p * 64 + q) * 0x1000 + r && r < 0x1000 && q < 64
    ensures n / 0x1000 % 64 == q
  {
    assert n / 0x1000 == p * 64 + q;
  }

  lemma ThirdField(n: nat, p: nat, q: nat, r: nat)
    requires n == (p * 64 + q) * 0x40 + r && r < 0x40 && q < 64
    ensures n / 0x40 % 64 == q && n % 64 == r
  {
    assert n / 0x40 == p * 64 + q;
  }

  /** The alphabet undoes itself, four letters at a time. */
  lemma LettersBack(p: nat, q: nat, r: nat, t: nat)
    requires p < 64 && q < 64 && r < 64 && t < 64
    ensures Values([Letter(p), Letter(q), Letter(r), Letter(t)]) == Some(Three(p, q, r, t))
    ensures Values([Letter(p), Letter(q)]) == Some(Three(p, q, 0, 0))
    ensures Values([Letter(p), Letter(q), Letter(r)]) == Some(Three(p, q, r, 0))
  {
    AlphabetExact(Letter(p), p);
    AlphabetExact(Letter(q), q);
    AlphabetExact(Letter(r), r);
    AlphabetExact(Letter(t), t);
  }

  lemma ThreeBack(a: byte, b: byte, c: byte)
    ensures Three(a / 4, a % 4 * 16 + b / 16, b % 16 * 4 + c / 64, c % 64) == [a, b, c]
  {
    assert (a % 4 * 16 + b / 16) / 16 == a % 4 && (a % 4 * 16 + b / 16) % 16 == b / 16;
    assert (b % 16 * 4 + c / 64) / 4 == b % 16 && (b % 16 * 4 + c / 64) % 4 == c / 64;
  }

  lemma SameLetters(n: nat, p: nat, q: nat, r: nat, s: nat)
    requires n / 0x4_0000 % 64 == p && n / 0x1000 % 64 == q && n / 0x40 % 64 == r && n % 64 == s
    ensures LettersOf(n) == [Letter(p), Letter(q), Letter(r), Letter(s)]
  {
  }

  lemma ValuesBack(n: nat, p: nat, q: nat, r: nat, t: nat)
    requires n / 0x4_0000 % 64 == p && n / 0x1000 % 64 == q && n / 0x40 % 64 == r && n % 64 == t
    ensures Values(LettersOf(n)) == Some(Three(p, q, r, t))
    ensures Values(LettersOf(n)[..2]) == Some(Three(p, q, 0, 0)) && Values(LettersOf(n)[..3]) == Some(Three(p, q, r, 0))
  {
    SameLetters(n, p, q, r, t);
    LettersBack(p, q, r, t);
    assert [Letter(p), Letter(q), Letter(r), Letter(t)][..2] == [Letter(p), Letter(q)];
    assert [Letter(p), Letter(q), Letter(r), Letter(t)][..3] == [Letter(p), Letter(q), Letter(r)];
  }

  /** A whole group decodes to its bytes. */
  lemma GroupBack(a: byte, b: byte, c: byte)
    ensures Values(LettersOf(Word(a, b, c))) == Some([a, b, c])
  {
    Fields(a, b, c);
    ValuesBack(Word(a, b, c), a / 4, a % 4 * 16 + b / 16, b % 16 * 4 + c / 64, c % 64);
    ThreeBack(a, b, c);
  }

  /** So does a group cut short. */
  lemma ShortGroupBack(a: byte, b: byte)
    ensures Values(LettersOf(Word(a, 0, 0))[..2]) == Some([a, 0, 0])
    ensures Values(LettersOf(Word(a, b, 0))[..3]) == Some([a, b, 0])
  {
    Fields(a, 0, 0);
    ValuesBack(Word(a, 0, 0), a / 4, a % 4 * 16, 0, 0);
    ThreeBack(a, 0, 0);
    Fields(a, b, 0);
    ValuesBack(Word(a, b, 0), a / 4, a % 4 * 16 + b / 16, b % 16 * 4, 0);
    ThreeBack(a, b, 0);
  }

  /** The code without its padding. */
  function Letters(x: seq<byte>): seq<byte>
  {
    Sixes(MsbBits(x))
  }

  /** A whole group in front is coded, and decodes, on its own. */
  lemma FirstGroup(x: seq<byte>) returns (f: seq<byte>)
    requires |x| >= 3
    ensures Letters(x) == f + Letters(x[3..]) && |f| == 4 && Values(f) == Some(x[..3])
    ensures PAD !in f
  {
    f := LettersOf(Word(x[0], x[1], x[2]));
    assert x[..3] == [x[0], x[1], x[2]];
    assert x == x[..3] + x[3..];
    WholeGroups(x[..3], x[3..], 1);
    GroupLetters(x[0], x[1], x[2]);
    GroupBack(x[0], x[1], x[2]);
    NoPadding(Word(x[0], x[1], x[2]));
  }

  lemma NoPadding(n: nat)
    ensures PAD !in LettersOf(n)
  {
    AlphabetExact(0, n / 0x4_0000 % 64);
    AlphabetExact(0, n / 0x1000 % 64);
    AlphabetExact(0, n / 0x40 % 64);
    AlphabetExact(0, n % 64);
  }

  lemma LastGroupBack(t: seq<byte>) returns (f: seq<byte>)
    requires |t| == 1 || |t| == 2
    ensures f == Letters(t) && |f| == |t| + 1 && PAD !in f && Groups(f) == Some(t)
  {
    var b := if |t| == 2 then t[1] else 0;
    f := LettersOf(Word(t[0], b, 0))[..|t| + 1];
    LeftOver(t);
    ShortGroupBack(t[0], b);
    NoPadding(Word(t[0], b, 0));
    assert [t[0], b, 0][..|t|] == t;
  }

  lemma OnePadOff(s: seq<byte>)
    ensures StripOne(s + [PAD]) == s
  {
  }

  lemma NoPadOff(s: seq<byte>)
    requires s != [] ==> s[|s| - 1] != PAD
    ensures StripOne(s) == s
  {
  }

  lemma {:induction false} StripsPadding(s: seq<byte>, n: nat)
    requires s != [] ==> s[|s| - 1] != PAD
    ensures Stripped(s + Padding(n)) == s
  {
    if n >= 3 {
      StripsPadding(s, n - 3);
    } else if n == 1 {
      Assoc(s, [PAD], [PAD]);
      OnePadOff(s + [PAD]);
      OnePadOff(s);
    } else if n == 2 {
      OnePadOff(s);
      NoPadOff(s);
    } else {
      assert s + [] == s;
      NoPadOff(s);
    }
  }

  lemma GroupsJoin(f: seq<byte>, tail: seq<byte>, b: seq<byte>, r: seq<byte>)
    requires |f| == 4 && Values(f) == Some(b) && Groups(tail) == Some(r)
    ensures Groups(f + tail) == Some(b + r)
  {
    assert (f + tail)[..4] == f && (f + tail)[4..] == tail;
  }

  lemma QuarterStep(n: nat)
    ensures (n + 4) * 3 / 4 == n * 3 / 4 + 3
  {
  }

  lemma {:induction false} GroupsBack(x: seq<byte>)
    ensures Groups(Letters(x)) == Some(x) && PAD !in Letters(x) && |Letters(x)| * 3 / 4 == |x|
  {
    if |x| == 1 || |x| == 2 {
      var f := LastGroupBack(x);
    } else if |x| >= 3 {
      var f := FirstGroup(x);
      GroupsBack(x[3..]);
      GroupsJoin(f, Letters(x[3..]), x[..3], x[3..]);
      QuarterStep(|Letters(x[3..])|);
      assert x[..3] + x[3..] == x;
    }
  }

  /** Decoding undoes encoding, for every byte string. */
  lemma DecodeUndoesEncode(x: seq<byte>)
    ensures Decode(Encode(x)) == Some(x)
  {
    GroupsBack(x);
    var s := Letters(x);
    assert s != [] ==> s[|s| - 1] in s;
    StripsPadding(s, |x|);
  }

  // ---- The programs ----

  lemma WholeStep(x: seq<byte>, i: nat, k: nat)
    requires i + 3 <= |x| && i == 3 * k
    ensures Letters(x[..i + 3]) == Letters(x[..i]) + LettersOf(Word(x[i], x[i + 1], x[i + 2]))
  {
    assert x[..i + 3] == x[..i] + [x[i], x[i + 1], x[i + 2]];
    WholeGroups(x[..i], [x[i], x[i + 1], x[i + 2]], k);
    GroupLetters(x[i], x[i + 1], x[i + 2]);
  }

  /** The last one or two bytes, as letters and padding. */
  function Tail(t: seq<byte>): seq<byte>
    requires |t| < 3
  {
    if t == [] then [] else LettersOf(Word(t[0], if |t| == 2 then t[1] else 0, 0))[..|t| + 1] + Padding(|t|)
  }

  lemma {:induction false} PaddingRest(n: nat, k: nat)
    requires 3 * k <= n
    ensures Padding(n) == Padding(n - 3 * k)
    decreases k
  {
    if k > 0 { PaddingRest(n - 3, k - 1); }
  }

  lemma EncodeSplit(x: seq<byte>, i: nat, k: nat)
    requires i <= |x| < i + 3 && i == 3 * k
    ensures Encode(x) == Letters(x[..i]) + Tail(x[i..])
  {
    assert x == x[..i] + x[i..];
    WholeGroups(x[..i], x[i..], k);
    PaddingRest(|x|, k);
    if i < |x| { LeftOver(x[i..]); }
    Assoc(Letters(x[..i]), Letters(x[i..]), Padding(|x|));
    assert Letters([]) == [] && Letters(x[..i]) + [] == Letters(x[..i]);
  }

  /** Encode into a growing string. */
  method EncodeVar(x: seq<byte>) returns (out: seq<byte>)
    ensures out == Encode(x)
  {
    out := [];
    var i := 0;
    ghost var k := 0;
    assert x[..0] == [];
    while i + 2 < |x|
      invariant i <= |x| && i == 3 * k && out == Letters(x[..i])
    {
      WholeStep(x, i, k);
      var n := Word(x[i], x[i + 1], x[i + 2]);
      out := out + [Letter(n / 0x4_0000 % 64), Letter(n / 0x1000 % 64), Letter(n / 0x40 % 64), Letter(n % 64)];
      i := i + 3;
      k := k + 1;
    }
    EncodeSplit(x, i, k);
    var tail := EncodeTail(x[i..]);
    out := out + tail;
  }

  /** The last one or two bytes, padded. */
  method EncodeTail(t: seq<byte>) returns (out: seq<byte>)
    requires |t| < 3
    ensures out == Tail(t)
  {
    out := [];
    if |t| == 1 {
      var n := Word(t[0], 0, 0);
      out := [Letter(n / 0x4_0000 % 64), Letter(n / 0x1000 % 64), PAD, PAD];
      assert out == LettersOf(n)[..2] + [PAD, PAD];
    } else if |t| == 2 {
      var n := Word(t[0], t[1], 0);
      out := [Letter(n / 0x4_0000 % 64), Letter(n / 0x1000 % 64), Letter(n / 0x40 % 64), PAD];
      assert out == LettersOf(n)[..3] + [PAD];
    }
  }

  lemma LeftOverLength(t: seq<byte>)
    requires |t| < 3
    ensures |Sixes(MsbBits(t))| + |Padding(|t|)| == if t == [] then 0 else 4
  {
    if |t| == 1 {
      LeftOverIsPrefix(t, [0, 0]);
    } else if |t| == 2 {
      LeftOverIsPrefix(t, [0]);
    }
  }

  /** The code has four characters for each group of three bytes, the last one filled up. */
  lemma EncodeLength(x: seq<byte>, k: nat)
    requires 3 * k <= |x| < 3 * k + 3
    ensures |Encode(x)| == (if |x| == 3 * k then 4 * k else 4 * k + 4) == (|x| + 2) / 3 * 4
  {
    var i := 3 * k;
    assert x == x[..i] + x[i..];
    WholeGroups(x[..i], x[i..], k);
    LeftOverLength(x[i..]);
    PaddingRest(|x|, k);
  }

  /** Encode into a buffer of exactly the size the code needs. */
  method EncodeFixed(x: seq<byte>, size: nat) returns (out: array<byte>)
    requires size == (|x| + 2) / 3 * 4
    ensures fresh(out) && out[..] == Encode(x)
  {
    EncodeLength(x, |x| / 3);
    out := new byte[size](_ => 0);
    var pos, i := 0, 0;
    ghost var k := 0;
    assert x[..0] == [];
    while i + 3 <= |x|
      invariant i <= |x| && i == 3 * k
      invariant pos <= out.Length == |Encode(x)| && out[..pos] == Letters(x[..i])
    {
      RoomForGroup(x, i, k);
      WriteGroup(out, pos, x, i, k);
      pos := pos + 4;
      i := i + 3;
      k := k + 1;
    }
    Finish(out, pos, x, i, k);
  }

  lemma RoomForGroup(x: seq<byte>, i: nat, k: nat)
    requires i + 3 <= |x| && i == 3 * k
    ensures |Letters(x[..i])| + 4 <= |Encode(x)|
  {
    assert x == x[..i] + x[i..] == x[..i + 3] + x[i + 3..];
    WholeGroups(x[..i], x[i..], k);
    WholeGroups(x[..i + 3], x[i + 3..], k + 1);
  }

  /** Write the group at `i` behind the code of what precedes it. */
  method WriteGroup(out: array<byte>, pos: nat, x: seq<byte>, i: nat, ghost k: nat)
    requires i + 3 <= |x| && i == 3 * k && pos + 4 <= out.Length && out[..pos] == Letters(x[..i])
    modifies out
    ensures out[..pos + 4] == Letters(x[..i + 3])
  {
    WholeStep(x, i, k);
    WriteFour(out, pos, Word(x[i], x[i + 1], x[i + 2]));
  }

  /** Write what is left behind the whole groups. */
  method Finish(out: array<byte>, pos: nat, x: seq<byte>, i: nat, ghost k: nat)
    requires i <= |x| < i + 3 && i == 3 * k
    requires pos <= out.Length == |Encode(x)| && out[..pos] == Letters(x[..i])
    modifies out
    ensures out[..] == Encode(x)
  {
    EncodeSplit(x, i, k);
    WritePadded(out, pos, x[i..]);
    assert out[..] == out[..pos] + out[pos..];
  }

  /** Write the last one or two bytes, padded. */
  method WritePadded(out: array<byte>, pos: nat, t: seq<byte>)
    requires |t| < 3 && out.Length == pos + |Tail(t)|
    modifies out
    ensures out[..pos] == old(out[..pos]) && out[pos..] == Tail(t)
  {
    if |t| == 2 {
      WriteFour(out, pos, Word(t[0], t[1], 0));
      out[pos + 3] := PAD;
      assert out[pos..] == LettersOf(Word(t[0], t[1], 0))[..3] + [PAD];
    } else if |t| == 1 {
      WriteFour(out, pos, Word(t[0], 0, 0));
      out[pos + 2] := PAD;
      out[pos + 3] := PAD;
      assert out[pos..] == LettersOf(Word(t[0], 0, 0))[..2] + [PAD, PAD];
    }
  }

  /** Write the four letters of a word into the buffer. */
  method WriteFour(out: array<byte>, pos: nat, triple: nat)
    requires pos + 4 <= out.Length
    modifies out
    ensures out[pos..pos + 4] == LettersOf(triple) && out[..pos + 4] == old(out[..pos]) + LettersOf(triple)
    ensures out[..pos] == old(out[..pos]) && out[pos + 4..] == old(out[pos + 4..])
  {
    out[pos] := Letter(triple / 0x4_0000 % 64);
    out[pos + 1] := Letter(triple / 0x1000 % 64);
    out[pos + 2] := Letter(triple / 0x40 % 64);
    out[pos + 3] := Letter(triple % 64);
  }

  function Prefixed(out: seq<byte>, o: Option<seq<byte>>): Option<seq<byte>>
  {
    match o
    case None => None
    case Some(rest) => Some(out + rest)
  }

  lemma GroupsStep(s: seq<byte>, i: nat, out: seq<byte>)
    requires i + 4 <= |s|
    ensures Prefixed(out, Groups(s[i..])) ==
      match Values(s[i..i + 4]) case None => None case Some(bytes) => Prefixed(out + bytes, Groups(s[i + 4..]))
  {
    assert s[i..][..4] == s[i..i + 4] && s[i..][4..] == s[i + 4..];
    if Values(s[i..i + 4]).Some? && Groups(s[i + 4..]).Some? {
      Assoc(out, Values(s[i..i + 4]).value, Groups(s[i + 4..]).value);
    }
  }

  /** The bytes of a last, partial group. */
  method LastGroup(t: seq<byte>) returns (r: Option<seq<byte>>)
    requires 1 <= |t| < 4
    ensures r == Groups(t)
  {
    var v0 := Lookup(t[0]);
    var v1 := if |t| > 1 then Lookup(t[1]) else 0;
    var v2 := if |t| > 2 then Lookup(t[2]) else 0;
    if v0 == INVALID || (|t| > 1 && v1 == INVALID) || (|t| > 2 && v2 == INVALID) {
      return None;
    }
    assert Values(t) == Some(Three(v0, v1, v2, 0));
    var bytes := [v0 * 4 + v1 / 16];
    if |t| > 2 {
      bytes := bytes + [v1 % 16 * 16 + v2 / 4];
    }
    assert bytes == Three(v0, v1, v2, 0)[..if |t| == 1 then 1 else |t| - 1];
    r := Some(bytes);
  }

  /** The bytes of a whole group. */
  method WholeGroup(s: seq<byte>, i: nat) returns (r: Option<seq<byte>>)
    requires i + 4 <= |s|
    ensures r == Values(s[i..i + 4])
  {
    var v0, v1, v2, v3 := Lookup(s[i]), Lookup(s[i + 1]), Lookup(s[i + 2]), Lookup(s[i + 3]);
    if v0 == INVALID || v1 == INVALID || v2 == INVALID || v3 == INVALID {
      return None;
    }
    r := Some(Three(v0, v1, v2, v3));
  }

  /** Add the bytes of the letters behind the whole groups. */
  method AddLast(out: seq<byte>, t: seq<byte>) returns (r: Option<seq<byte>>)
    requires |t| < 4
    ensures r == Prefixed(out, Groups(t))
  {
    if t == [] {
      assert out + [] == out;
      return Some(out);
    }
    var last := LastGroup(t);
    if last == None {
      return None;
    }
    r := Some(out + last.value);
  }

  /** The letters in front of the padding. */
  method LettersEnd(s: seq<byte>) returns (end: nat)
    ensures end <= |s| && s[..end] == Stripped(s)
  {
    end := |s|;
    if end > 0 && s[end - 1] == PAD {
      end := end - 1;
    }
    assert s[..end] == StripOne(s);
    if end > 0 && s[end - 1] == PAD {
      end := end - 1;
    }
  }

  /** Decode, after any white space has been taken out. */
  method DecodeStrip(s: seq<byte>) returns (r: Option<seq<byte>>)
    ensures r == Decode(s)
  {
    var end := LettersEnd(s);
    ghost var letters := s[..end];
    var out, i := [], 0;
    NothingYet(letters);
    while i + 3 < end
      invariant i <= end && Prefixed(out, Groups(letters[i..])) == Groups(letters)
    {
      GroupsStep(letters, i, out);
      assert letters[i..i + 4] == s[i..i + 4];
      var bytes := WholeGroup(s, i);
      if bytes == None {
        return None;
      }
      out := out + bytes.value;
      i := i + 4;
    }
    assert letters[i..] == s[i..end];
    var all := AddLast(out, s[i..end]);
    if all == None {
      return None;
    }
    r := Some(if |all.value| > end * 3 / 4 then all.value[..end * 3 / 4] else all.value);
  }

  lemma NothingYet(letters: seq<byte>)
    ensures Prefixed([], Groups(letters[0..])) == Groups(letters)
  {
    assert letters[0..] == letters;
    if Groups(letters).Some? { assert [] + Groups(letters).value == Groups(letters).value; }
  }
}
