/**
  Canonical Huffman codes for arbitrary length tables (section 3.2.2 of RFC 1951):
  the code of each symbol, a reference decoder that only speaks of codes, and the
  table builder and bit-at-a-time decoder proved against it.
 */
module Huffman {
  import opened Bits
  import opened BitStreams

  // ---- The code that a length table assigns ----

  /** How many of the first `k` symbols have code length `l`. */
  function Count(lens: seq<nat>, l: nat, k: nat): (r: nat)
    requires k <= |lens|
    ensures r <= k
  {
    if k == 0 then 0 else Count(lens, l, k - 1) + Bit(lens[k - 1] == l)
  }

  function BlCount(lens: seq<nat>, l: nat): nat
  {
    if l == 0 then 0 else Count(lens, l, |lens|)
  }

  /** The numerically smallest code of length `l`. */
  function FirstCode(lens: seq<nat>, l: nat): nat
  {
    if l == 0 then 0 else 2 * (FirstCode(lens, l - 1) + BlCount(lens, l - 1))
  }

  function Code(lens: seq<nat>, s: nat): nat
    requires s < |lens|
  {
    FirstCode(lens, lens[s]) + Count(lens, lens[s], s)
  }

  function CodeBits(lens: seq<nat>, s: nat): seq<bool>
    requires s < |lens|
  {
    Msb(Code(lens, s), lens[s])
  }

  predicate ValidLens(lens: seq<nat>)
  {
    forall i :: 0 <= i < |lens| ==> lens[i] < 16
  }

  /** The Kraft sum of the first `k` symbols in units of 2^-15. */
  function KraftSum(lens: seq<nat>, k: nat): nat
    requires k <= |lens|
  {
    if k == 0 then 0
    else KraftSum(lens, k - 1) + if 0 < lens[k - 1] < 16 then Pow2(15 - lens[k - 1]) else 0
  }

  predicate Fits(lens: seq<nat>)
  {
    ValidLens(lens) && KraftSum(lens, |lens|) <= 0x8000
  }

  // ---- The reference decoder ----

  ghost predicate IsCodeOf(lens: seq<nat>, s: nat, bits: seq<bool>)
  {
    s < |lens| && lens[s] > 0 && CodeBits(lens, s) <= bits
  }

  /** The symbol whose code the stream starts with, and what follows that code. */
  ghost function DecodeSym(lens: seq<nat>, bits: seq<bool>): (r: Parse<nat>)
    ensures r.Got? ==> |r.rest| < |bits| && r.value < |lens|
  {
    if exists s: nat :: IsCodeOf(lens, s, bits) then
      var s: nat :| IsCodeOf(lens, s, bits);
      Got(s, bits[lens[s]..])
    else if |bits| < 15 then Bad(UnexpectedEof)
    else Bad(BadCode)
  }

  // ---- Counting lemmas ----

  lemma {:induction false} CountPrefix(lens: seq<nat>, m: nat, l: nat, k: nat)
    requires k <= m <= |lens|
    ensures Count(lens[..m], l, k) == Count(lens, l, k)
  {
    if k != 0 { CountPrefix(lens, m, l, k - 1); }
  }

  lemma {:induction false} CountMono(lens: seq<nat>, l: nat, s: nat, t: nat)
    requires s <= t <= |lens|
    ensures Count(lens, l, s) <= Count(lens, l, t)
    ensures s < t && lens[s] == l ==> Count(lens, l, s) < Count(lens, l, t)
  {
    if s < t { CountMono(lens, l, s, t - 1); }
  }

  lemma {:induction false} NthSymbol(lens: seq<nat>, l: nat, k: nat, n: nat) returns (s: nat)
    requires n <= |lens| && k < Count(lens, l, n)
    ensures s < n && lens[s] == l && Count(lens, l, s) == k
  {
    if lens[n - 1] == l && Count(lens, l, n - 1) == k {
      s := n - 1;
    } else {
      s := NthSymbol(lens, l, k, n - 1);
    }
  }

  /** Code space used by the codes of length at most `l`, in units of 2^-l. */
  function Used(lens: seq<nat>, l: nat): nat
  {
    FirstCode(lens, l) + BlCount(lens, l)
  }

  lemma {:induction false} UsedStep(lens: seq<nat>, l: nat)
    requires lens != []
    ensures var x := lens[|lens| - 1];
      Used(lens, l) == Used(lens[..|lens| - 1], l) + if 0 < x <= l then Pow2(l - x) else 0
  {
    if l != 0 {
      UsedStep(lens, l - 1);
      CountPrefix(lens, |lens| - 1, l, |lens| - 1);
    }
  }

  lemma {:induction false} UsedNone(l: nat)
    ensures Used([], l) == 0
  {
    if l != 0 { UsedNone(l - 1); }
  }

  /** The canonical construction hands out exactly the Kraft sum. */
  lemma {:induction false} KraftIsUsed(lens: seq<nat>)
    requires ValidLens(lens)
    ensures KraftSum(lens, |lens|) == Used(lens, 15)
  {
    if lens == [] {
      UsedNone(15);
    } else {
      var n := |lens| - 1;
      UsedStep(lens, 15);
      KraftIsUsed(lens[..n]);
      KraftPrefix(lens, n, n);
    }
  }

  lemma {:induction false} KraftPrefix(lens: seq<nat>, m: nat, k: nat)
    requires k <= m <= |lens|
    ensures KraftSum(lens[..m], k) == KraftSum(lens, k)
  {
    if k != 0 { KraftPrefix(lens, m, k - 1); }
  }

  lemma {:induction false} UsedGrows(lens: seq<nat>, a: nat, d: nat)
    ensures d > 0 ==> FirstCode(lens, a + d) >= Shl(Used(lens, a), d)
    ensures Used(lens, a + d) >= Shl(Used(lens, a), d)
  {
    if d != 0 { UsedGrows(lens, a, d - 1); }
  }

  /** Code space running out at any length is the same as the Kraft sum exceeding one. */
  lemma OverIsKraft(lens: seq<nat>, l: nat)
    requires ValidLens(lens) && l <= 15
    ensures Used(lens, l) > Pow2(l) ==> KraftSum(lens, |lens|) > 0x8000
  {
    if Used(lens, l) > Pow2(l) {
      KraftIsUsed(lens);
      UsedGrows(lens, l, 15 - l);
      ShlPow2(l, 15 - l);
      ShlMono(Pow2(l), Used(lens, l), 15 - l);
      Powers();
    }
  }

  lemma CodeBound(lens: seq<nat>, s: nat)
    requires Fits(lens) && s < |lens| && lens[s] > 0
    ensures FirstCode(lens, lens[s]) <= Code(lens, s) < Used(lens, lens[s]) <= Pow2(lens[s])
  {
    OverIsKraft(lens, lens[s]);
    CountMono(lens, lens[s], s, |lens|);
  }

  // ---- The code is a prefix code ----

  lemma FromMsbPush(bits: seq<bool>, len: nat)
    requires 0 < len <= |bits|
    ensures FromMsb(bits[..len]) == 2 * FromMsb(bits[..len - 1]) + Bit(bits[len - 1])
  {
    assert bits[..len][..len - 1] == bits[..len - 1];
  }

  lemma MsbValue(c: nat, n: nat, bits: seq<bool>)
    requires n <= |bits| && c < Pow2(n)
    ensures Msb(c, n) <= bits <==> FromMsb(bits[..n]) == c
  {
    MsbRoundTrip(c, n);
    FromMsbRoundTrip(bits[..n]);
    if Msb(c, n) <= bits { assert bits[..n] == Msb(c, n); }
  }

  /** A code starts the stream exactly when the stream's first bits read as its value. */
  lemma IsCodeValue(lens: seq<nat>, s: nat, bits: seq<bool>)
    requires Fits(lens) && s < |lens| && 0 < lens[s] <= |bits|
    ensures CodeBits(lens, s) <= bits <==> FromMsb(bits[..lens[s]]) == Code(lens, s)
  {
    CodeBound(lens, s);
    MsbValue(Code(lens, s), lens[s], bits);
  }

  lemma {:induction false} FromMsbPrefix(bits: seq<bool>, m: nat, n: nat)
    requires m + n <= |bits|
    ensures FromMsb(bits[..m]) == Shr(FromMsb(bits[..m + n]), n)
  {
    if n != 0 {
      FromMsbPush(bits, m + n);
      FromMsbPrefix(bits, m, n - 1);
    }
  }

  /** No stream starts with the codes of two different symbols. */
  lemma PrefixFree(lens: seq<nat>, s: nat, t: nat, bits: seq<bool>)
    requires Fits(lens) && IsCodeOf(lens, s, bits) && IsCodeOf(lens, t, bits)
    ensures s == t
  {
    if lens[s] > lens[t] {
      NoShorterCode(lens, t, s, bits);
    } else if lens[s] < lens[t] {
      NoShorterCode(lens, s, t, bits);
    } else {
      IsCodeValue(lens, s, bits);
      IsCodeValue(lens, t, bits);
      if s < t { CountMono(lens, lens[s], s, t); }
      if t < s { CountMono(lens, lens[s], t, s); }
    }
  }

  lemma NoShorterCode(lens: seq<nat>, s: nat, t: nat, bits: seq<bool>)
    requires Fits(lens) && IsCodeOf(lens, s, bits) && t < |lens| && lens[s] < lens[t] <= |bits|
    ensures !IsCodeOf(lens, t, bits)
  {
    var short, long, d := lens[s], lens[t], lens[t] - lens[s];
    var used := Used(lens, short);
    assert FromMsb(bits[..short]) < used by {
      IsCodeValue(lens, s, bits);
      CodeBound(lens, s);
    }
    UsedGrows(lens, short, d);
    FromMsbPrefix(bits, short, d);
    CodeBound(lens, t);
    IsCodeValue(lens, t, bits);
    ShrLower(FromMsb(bits[..long]), d, used);
  }

  lemma {:induction false} ShrLower(v: nat, d: nat, u: nat)
    ensures v >= Shl(u, d) ==> Shr(v, d) >= u
  {
    if d != 0 { ShrLower(v / 2, d - 1, u); }
  }

  /** A stream that starts with the code of a symbol decodes to that symbol. */
  lemma DecodeAt(lens: seq<nat>, s: nat, bits: seq<bool>)
    requires Fits(lens) && IsCodeOf(lens, s, bits)
    ensures DecodeSym(lens, bits) == Got(s, bits[lens[s]..])
  {
    forall t | IsCodeOf(lens, t, bits) ensures t == s { PrefixFree(lens, s, t, bits); }
  }

  /** Decoding the code of a symbol gives that symbol and consumes exactly its code. */
  lemma DecodeCode(lens: seq<nat>, s: nat, rest: seq<bool>)
    requires Fits(lens) && s < |lens| && lens[s] > 0
    ensures DecodeSym(lens, CodeBits(lens, s) + rest) == Got(s, rest)
  {
    DecodeAt(lens, s, CodeBits(lens, s) + rest);
  }

  /** Any successful decode read the code of the symbol it returned. */
  lemma DecodeReadsCode(lens: seq<nat>, bits: seq<bool>)
    requires DecodeSym(lens, bits).Got?
    ensures var Got(s, rest) := DecodeSym(lens, bits);
      lens[s] > 0 && bits == CodeBits(lens, s) + rest
  {
  }

  /** More input after a decoded symbol changes nothing but what is left. */
  lemma DecodeExtend(lens: seq<nat>, bits: seq<bool>, more: seq<bool>)
    requires Fits(lens) && DecodeSym(lens, bits).Got?
    ensures DecodeSym(lens, bits + more) ==
            Got(DecodeSym(lens, bits).value, DecodeSym(lens, bits).rest + more)
  {
    var Got(s, rest) := DecodeSym(lens, bits);
    DecodeCode(lens, s, rest + more);
    assert bits + more == CodeBits(lens, s) + (rest + more);
  }

  // ---- The decoding table ----

  datatype Huff = Huff(counts: seq<nat>, symbols: seq<nat>)

  /** Where the sorted symbol list starts the symbols of length `l`. */
  function Offset(lens: seq<nat>, l: nat): nat
  {
    if l <= 1 then 0 else Offset(lens, l - 1) + BlCount(lens, l - 1)
  }

  function Slot(lens: seq<nat>, s: nat): nat
    requires s < |lens|
  {
    Offset(lens, lens[s]) + Count(lens, lens[s], s)
  }

  ghost predicate Represents(h: Huff, lens: seq<nat>)
  {
    && Fits(lens)
    && |h.counts| == 16 && |h.symbols| == |lens|
    && (forall l :: 0 <= l < 16 ==> h.counts[l] == BlCount(lens, l))
    && Placed(h.symbols, lens, |lens|)
  }

  lemma {:induction false} OffsetStep(lens: seq<nat>, l: nat)
    requires lens != []
    ensures Offset(lens, l) == Offset(lens[..|lens| - 1], l) + Bit(0 < lens[|lens| - 1] < l)
  {
    if l > 1 {
      OffsetStep(lens, l - 1);
      CountPrefix(lens, |lens| - 1, l - 1, |lens| - 1);
    }
  }

  lemma {:induction false} OffsetBound(lens: seq<nat>, l: nat)
    ensures Offset(lens, l) <= |lens|
  {
    if lens == [] {
      if l > 1 { OffsetBound(lens, l - 1); }
    } else {
      OffsetStep(lens, l);
      OffsetBound(lens[..|lens| - 1], l);
    }
  }

  lemma {:induction false} OffsetMono(lens: seq<nat>, a: nat, b: nat)
    requires a <= b
    ensures Offset(lens, a) <= Offset(lens, b)
  {
    if a < b { OffsetMono(lens, a, b - 1); }
  }

  lemma SlotBound(lens: seq<nat>, s: nat)
    requires s < |lens| && lens[s] > 0
    ensures Offset(lens, lens[s]) <= Slot(lens, s) < Offset(lens, lens[s] + 1) <= |lens|
  {
    CountMono(lens, lens[s], s, |lens|);
    OffsetBound(lens, lens[s] + 1);
  }

  /** The counting sort never places two symbols in one slot. */
  lemma SlotInjective(lens: seq<nat>, s: nat, t: nat)
    requires s < t < |lens| && lens[s] > 0 && lens[t] > 0
    ensures Slot(lens, s) != Slot(lens, t)
  {
    SlotBound(lens, s);
    SlotBound(lens, t);
    if lens[s] == lens[t] {
      CountMono(lens, lens[s], s, t);
    } else if lens[s] < lens[t] {
      OffsetMono(lens, lens[s] + 1, lens[t]);
    } else {
      OffsetMono(lens, lens[t] + 1, lens[s]);
    }
  }

  method CountLengths(lens: seq<nat>) returns (ok: bool, counts: seq<nat>)
    ensures ok <==> ValidLens(lens)
    ensures ok ==> |counts| == 16 && forall l :: 0 <= l < 16 ==> counts[l] == BlCount(lens, l)
  {
    var tally := new nat[16](_ => 0);
    for i := 0 to |lens|
      invariant forall j :: 0 <= j < i ==> lens[j] < 16
      invariant forall l :: 0 <= l < 16 ==> tally[l] == Count(lens, l, i)
    {
      if lens[i] >= 16 {
        return false, [];
      }
      tally[lens[i]] := tally[lens[i]] + 1;
    }
    tally[0] := 0;
    ok, counts := true, tally[..];
  }

  /** Walk the code space: false exactly when some length runs out of codes. */
  method CheckSpace(counts: seq<nat>, ghost lens: seq<nat>) returns (ok: bool)
    requires ValidLens(lens)
    requires |counts| == 16 && forall l :: 0 <= l < 16 ==> counts[l] == BlCount(lens, l)
    ensures ok <==> Fits(lens)
  {
    var left: int := 1;
    for l := 1 to 16
      invariant left == Pow2(l - 1) - Used(lens, l - 1) >= 0
    {
      left := left * 2;
      left := left - counts[l];
      if left < 0 {
        OverIsKraft(lens, l);
        return false;
      }
    }
    KraftIsUsed(lens);
    Powers();
    ok := true;
  }

  ghost predicate Starts(offsets: seq<nat>, lens: seq<nat>, l: nat)
  {
    l <= |offsets| && forall j :: 1 <= j < l ==> offsets[j] == Offset(lens, j)
  }

  lemma StartsNext(offsets: seq<nat>, lens: seq<nat>, l: nat)
    requires 1 <= l < |offsets| && Starts(offsets, lens, l)
    ensures Starts(offsets[l := Offset(lens, l)], lens, l + 1)
    ensures Offset(lens, l + 1) == Offset(lens, l) + BlCount(lens, l)
  {
  }

  method Offsets(counts: seq<nat>, ghost lens: seq<nat>) returns (offsets: array<nat>)
    requires |counts| == 16 && forall l :: 0 <= l < 16 ==> counts[l] == BlCount(lens, l)
    ensures fresh(offsets) && offsets.Length == 16
    ensures forall l :: 1 <= l < 16 ==> offsets[l] == Offset(lens, l)
  {
    offsets := new nat[16](_ => 0);
    var off := 0;
    for l := 1 to 16
      invariant off == Offset(lens, l) && Starts(offsets[..], lens, l)
    {
      ghost var before := offsets[..];
      offsets[l] := off;
      assert offsets[..] == before[l := off];
      StartsNext(before, lens, l);
      off := off + counts[l];
    }
    assert Starts(offsets[..], lens, 16);
  }

  /** The slots of the first `n` symbols hold those symbols. */
  ghost predicate Placed(symbols: seq<nat>, lens: seq<nat>, n: nat)
    requires n <= |lens|
  {
    forall s :: 0 <= s < n && lens[s] > 0 ==> Slot(lens, s) < |symbols| && symbols[Slot(lens, s)] == s
  }

  lemma PlaceNext(symbols: seq<nat>, lens: seq<nat>, sym: nat)
    requires sym < |lens| == |symbols| && lens[sym] > 0 && Placed(symbols, lens, sym)
    ensures Slot(lens, sym) < |symbols|
    ensures Placed(symbols[Slot(lens, sym) := sym], lens, sym + 1)
  {
    SlotBound(lens, sym);
    forall s | 0 <= s < sym && lens[s] > 0 ensures Slot(lens, s) != Slot(lens, sym) {
      SlotInjective(lens, s, sym);
    }
  }

  /** The offsets point behind what the first `n` symbols have been given. */
  ghost predicate Pointing(offsets: seq<nat>, lens: seq<nat>, n: nat)
    requires n <= |lens|
  {
    |offsets| == 16 && forall l :: 1 <= l < 16 ==> offsets[l] == Offset(lens, l) + Count(lens, l, n)
  }

  lemma PointingNext(offsets: seq<nat>, lens: seq<nat>, sym: nat)
    requires sym < |lens| && lens[sym] < 16 && Pointing(offsets, lens, sym)
    ensures lens[sym] == 0 ==> Pointing(offsets, lens, sym + 1)
    ensures lens[sym] > 0 ==>
      && offsets[lens[sym]] == Slot(lens, sym)
      && Pointing(offsets[lens[sym] := offsets[lens[sym]] + 1], lens, sym + 1)
  {
  }

  lemma SkipNext(symbols: seq<nat>, lens: seq<nat>, sym: nat)
    requires sym < |lens| && lens[sym] == 0 && Placed(symbols, lens, sym)
    ensures Placed(symbols, lens, sym + 1)
  {
  }

  method Store(a: array<nat>, i: nat, v: nat)
    requires i < a.Length
    modifies a
    ensures a[..] == old(a[..])[i := v]
  {
    a[i] := v;
  }

  /** Give symbol `sym` its place, unless it has no code. */
  method Place(symbols: array<nat>, offsets: array<nat>, lens: seq<nat>, sym: nat)
    requires symbols != offsets && symbols.Length == |lens| && sym < |lens| && lens[sym] < 16
    requires Pointing(offsets[..], lens, sym) && Placed(symbols[..], lens, sym)
    modifies symbols, offsets
    ensures Pointing(offsets[..], lens, sym + 1) && Placed(symbols[..], lens, sym + 1)
  {
    var l := lens[sym];
    ghost var before, pointers := symbols[..], offsets[..];
    PointingNext(pointers, lens, sym);
    if l != 0 {
      PlaceNext(before, lens, sym);
      var at := offsets[l];
      Store(symbols, at, sym);
      Store(offsets, l, at + 1);
    } else {
      SkipNext(before, lens, sym);
    }
  }

  method SortSymbols(counts: seq<nat>, lens: seq<nat>) returns (sorted: seq<nat>)
    requires ValidLens(lens)
    requires |counts| == 16 && forall l :: 0 <= l < 16 ==> counts[l] == BlCount(lens, l)
    ensures |sorted| == |lens| && Placed(sorted, lens, |lens|)
  {
    var offsets := Offsets(counts, lens);
    var symbols := new nat[|lens|](_ => 0);
    for sym := 0 to |lens|
      invariant Pointing(offsets[..], lens, sym) && Placed(symbols[..], lens, sym)
    {
      Place(symbols, offsets, lens, sym);
    }
    sorted := symbols[..];
  }

  /** Accept exactly the length tables that fit the code space. */
  method Build(lens: seq<nat>) returns (r: Result<Huff>)
    requires |lens| <= 0xFFFF
    ensures !ValidLens(lens) ==> r == Err(InvalidData)
    ensures ValidLens(lens) && KraftSum(lens, |lens|) > 0x8000 ==> r == Err(BadCode)
    ensures Fits(lens) ==> r.Ok? && Represents(r.value, lens)
  {
    var valid, counts := CountLengths(lens);
    if !valid {
      return Err(InvalidData);
    }
    var fits := CheckSpace(counts, lens);
    if !fits {
      return Err(BadCode);
    }
    var symbols := SortSymbols(counts, lens);
    r := Ok(Huff(counts, symbols));
  }

  /** A value inside the codes of length `len` is the code of the symbol in its slot. */
  lemma SlotDecodes(h: Huff, lens: seq<nat>, bits: seq<bool>, len: nat, code: nat, at: nat)
    requires Represents(h, lens) && 0 < len < 16 && len <= |bits|
    requires code == FromMsb(bits[..len]) && FirstCode(lens, len) <= code < Used(lens, len)
    requires at == Offset(lens, len) + (code - FirstCode(lens, len))
    ensures at < |h.symbols| && DecodeSym(lens, bits) == Got(h.symbols[at], bits[len..])
  {
    var s := SymbolAt(h, lens, len, code, at);
    IsCodeValue(lens, s, bits);
    DecodeAt(lens, s, bits);
  }

  lemma SymbolAt(h: Huff, lens: seq<nat>, len: nat, code: nat, at: nat) returns (s: nat)
    requires Represents(h, lens) && 0 < len < 16 && FirstCode(lens, len) <= code < Used(lens, len)
    requires at == Offset(lens, len) + (code - FirstCode(lens, len))
    ensures s < |lens| && lens[s] == len && Code(lens, s) == code && at < |h.symbols| && h.symbols[at] == s
  {
    s := NthSymbol(lens, len, code - FirstCode(lens, len), |lens|);
    assert Slot(lens, s) == at;
  }

  lemma NoCodeHere(lens: seq<nat>, bits: seq<bool>, len: nat)
    requires Fits(lens) && 0 < len <= |bits| && FromMsb(bits[..len]) >= Used(lens, len)
    ensures forall s :: 0 <= s < |lens| && lens[s] == len ==> !IsCodeOf(lens, s, bits)
  {
    forall s | 0 <= s < |lens| && lens[s] == len ensures !IsCodeOf(lens, s, bits) {
      IsCodeValue(lens, s, bits);
      CodeBound(lens, s);
    }
  }

  ghost predicate NoCodeBelow(lens: seq<nat>, bits: seq<bool>, len: nat)
  {
    forall s :: 0 <= s < |lens| && 0 < lens[s] < len ==> !IsCodeOf(lens, s, bits)
  }

  lemma NoCodeMeansError(lens: seq<nat>, bits: seq<bool>, len: nat)
    requires ValidLens(lens) && NoCodeBelow(lens, bits, len)
    ensures |bits| < len <= 15 ==> DecodeSym(lens, bits) == Bad(UnexpectedEof)
    ensures |bits| >= 15 && len == 16 ==> DecodeSym(lens, bits) == Bad(BadCode)
  {
  }

  /** Where the decoder stands before reading bit `len`: no code shorter than `len` starts the stream. */
  ghost predicate AtLevel(lens: seq<nat>, bits: seq<bool>, len: nat, code: nat, first: nat, index: nat)
  {
    && 0 < len <= |bits| + 1 && code == FromMsb(bits[..len - 1])
    && first == FirstCode(lens, len) && first <= 2 * code && index == Offset(lens, len)
    && NoCodeBelow(lens, bits, len)
  }

  /** The code with one more bit. */
  lemma OneMoreBit(lens: seq<nat>, bits: seq<bool>, len: nat, code: nat, first: nat, index: nat, next: nat)
    requires len <= |bits| && AtLevel(lens, bits, len, code, first, index) && next == code * 2 + Bit(bits[len - 1])
    ensures next == FromMsb(bits[..len]) && first <= next
  {
    FromMsbPush(bits, len);
  }

  /** Either it is the code of a symbol of this length. */
  lemma CodeEnds(h: Huff, lens: seq<nat>, bits: seq<bool>, len: nat, code: nat, first: nat, index: nat, next: nat)
    requires Represents(h, lens) && len < 16 && len <= |bits| && AtLevel(lens, bits, len, code, first, index)
    requires next == FromMsb(bits[..len]) && first <= next < first + h.counts[len]
    ensures var at := index + (next - first);
      at < |h.symbols| && DecodeSym(lens, bits) == Got(h.symbols[at], bits[len..])
  {
    SlotDecodes(h, lens, bits, len, next, index + (next - first));
  }

  /** Or no code of this length starts the stream. */
  lemma LevelUp(h: Huff, lens: seq<nat>, bits: seq<bool>, len: nat, code: nat, first: nat, index: nat, next: nat)
    requires Represents(h, lens) && len < 16 && len <= |bits| && AtLevel(lens, bits, len, code, first, index)
    requires next == FromMsb(bits[..len]) && next >= first + h.counts[len]
    ensures AtLevel(lens, bits, len + 1, next, (first + h.counts[len]) * 2, index + h.counts[len])
  {
    NoCodeHere(lens, bits, len);
  }

  lemma StartsAtZero(lens: seq<nat>, l: nat)
    requires l == 1
    ensures FirstCode(lens, l) == 0 && Offset(lens, l) == 0
  {
    assert FirstCode(lens, l) == 2 * (FirstCode(lens, l - 1) + BlCount(lens, l - 1));
  }

  lemma FirstLevel(lens: seq<nat>, bits: seq<bool>)
    ensures AtLevel(lens, bits, 1, 0, 0, 0)
  {
    StartsAtZero(lens, 1);
    assert bits[..0] == [];
  }

  method NextBit(r: BitReader, ghost bits: seq<bool>, len: nat) returns (b: Result<nat>)
    requires r.Valid() && 0 < len <= |bits| + 1 && r.Rest() == bits[len - 1..]
    modifies r
    ensures len <= |bits| ==> b == Ok(Bit(bits[len - 1])) && r.Valid() && r.Rest() == bits[len..]
    ensures len > |bits| ==> b == Err(UnexpectedEof)
  {
    b := r.ReadBit();
    assert len <= |bits| ==> bits[len - 1..][1..] == bits[len..];
  }

  /** Decode one symbol bit by bit: exactly what the reference decoder says. */
  method Decode(h: Huff, r: BitReader, ghost lens: seq<nat>) returns (res: Result<nat>)
    requires r.Valid() && Represents(h, lens)
    modifies r
    ensures Reads(res, r, DecodeSym(lens, old(r.Rest())))
  {
    var code: nat, first: nat, index: nat := 0, 0, 0;
    ghost var bits := r.Rest();
    FirstLevel(lens, bits);
    for len := 1 to 16
      invariant r.Valid() && len - 1 <= |bits| && r.Rest() == bits[len - 1..]
      invariant AtLevel(lens, bits, len, code, first, index)
    {
      NoCodeMeansError(lens, bits, len);
      var b := NextBit(r, bits, len);
      if b.Err? {
        return Err(b.error);
      }
      ghost var before := code;
      code := code * 2 + b.value;
      OneMoreBit(lens, bits, len, before, first, index, code);
      var count := h.counts[len];
      if code < first + count {
        CodeEnds(h, lens, bits, len, before, first, index, code);
        return Ok(h.symbols[index + (code - first)]);
      }
      LevelUp(h, lens, bits, len, before, first, index, code);
      index := index + count;
      first := (first + count) * 2;
    }
    NoCodeMeansError(lens, bits, 16);
    res := Err(BadCode);
  }
}
