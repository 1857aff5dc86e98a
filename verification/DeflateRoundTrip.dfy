/** What the encoder and the decoder promise of each other. */
module DeflateRoundTrip {
  import opened Bits
  import opened BitStreams
  import opened Huffman
  import opened DeflateTables
  import opened Inflate
  import opened Deflate

  /** Inflating a byte string into an empty output. */
  ghost function Inflated(bytes: seq<byte>): Step
  {
    Blocks(BytesToBits(bytes), [])
  }

  // ---- One token ----

  lemma FieldOf(v: nat, n: nat, rest: seq<bool>)
    requires v < Pow2(n)
    ensures Field(Lsb(v, n) + rest, n) == Got(v, rest)
  {
    LsbRoundTrip(v, n);
    var bits := Lsb(v, n) + rest;
    assert bits[..n] == Lsb(v, n) && bits[n..] == rest;
  }

  /** A coded symbol with extra bits decodes to the symbol and then to the value. */
  lemma SymbolDecodes(lens: seq<nat>, s: nat, code: nat, len: nat, v: nat, base: nat, xtra: nat, rest: seq<bool>)
    returns (after: seq<bool>)
    requires Fits(lens) && s < |lens| && lens[s] == len > 0 && CodeBits(lens, s) == Msb(code, len)
    requires base <= v < base + Pow2(xtra)
    ensures DecodeSym(lens, CodeWithExtra(code, len, v, base, xtra) + rest) == Got(s, after)
    ensures WithExtra(base, xtra, after) == Got(v, rest)
  {
    var extra := Lsb(v - base, xtra);
    after := extra + rest;
    DecodeCode(lens, s, after);
    Assoc(Msb(code, len), extra, rest);
    FieldOf(v - base, xtra, rest);
  }

  lemma LengthDecodesBy(lens: seq<nat>, len: nat, li: nat, rest: seq<bool>) returns (after: seq<bool>)
    requires lens == FixedLL() && MIN_M <= len <= MAX_M && li == SymbolOf(LEN_BASE, len, |LEN_BASE|)
    ensures DecodeSym(lens, LengthBits(li, len) + rest) == Got(257 + li, after)
    ensures WithExtra(LEN_BASE[li], LEN_XTRA[li], after) == Got(len, rest)
  {
    LengthSplits(len, li);
    FixedCode(lens, 257 + li);
    after := SymbolDecodes(lens, 257 + li, LLCode(257 + li), LLBits(257 + li), len, LEN_BASE[li], LEN_XTRA[li], rest);
  }

  lemma LengthDecodes(len: nat, li: nat, rest: seq<bool>) returns (after: seq<bool>)
    requires MIN_M <= len <= MAX_M && li == SymbolOf(LEN_BASE, len, |LEN_BASE|)
    ensures DecodeSym(FixedLL(), LengthBits(li, len) + rest) == Got(257 + li, after)
    ensures LengthOf(257 + li, after) == Got(len, rest)
  {
    after := LengthDecodesBy(FixedLL(), len, li, rest);
  }

  lemma DistDecodes(dist: nat, di: nat, rest: seq<bool>)
    requires 1 <= dist <= WIN && di == SymbolOf(DIST_BASE, dist, |DIST_BASE|)
    ensures DistanceOf(FixedDist(), DistBits(di, dist) + rest) == Got(dist, rest)
  {
    DistanceSplits(dist, di);
    FixedDistCode(FixedDist(), di);
    var after := SymbolDecodes(FixedDist(), di, di, 5, dist, DIST_BASE[di], DIST_XTRA[di], rest);
  }

  /** The back-reference bits of a match decode to its length and distance. */
  lemma MatchDecodes(len: nat, dist: nat, rest: seq<bool>) returns (sym: nat, after: seq<bool>)
    requires Encodable(Match(len, dist))
    ensures sym > 256
    ensures DecodeSym(FixedLL(), TokenBits(Match(len, dist)) + rest) == Got(sym, after)
    ensures BackRef(sym, FixedDist(), after) == Got(Ref(len, dist), rest)
  {
    var li := SymbolOf(LEN_BASE, len, |LEN_BASE|);
    var di := SymbolOf(DIST_BASE, dist, |DIST_BASE|);
    after := LengthDecodes(len, li, DistBits(di, dist) + rest);
    DistDecodes(dist, di, rest);
    Assoc(LengthBits(li, len), DistBits(di, dist), rest);
    sym := 257 + li;
  }

  /** What a token appends to the output. */
  function Appended(out: seq<byte>, t: Token): (s: seq<byte>)
    requires t.Match? ==> 1 <= t.dist <= |out|
    ensures |s| == Span(t)
  {
    match t
    case Lit(b) => [b]
    case Match(len, dist) => Periodic(out, dist, len)
  }

  ghost function AfterToken(t: Token, rest: seq<bool>, out: seq<byte>): Step
    requires t.Match? ==> 1 <= t.dist <= |out|
  {
    if Span(t) <= Room(out) then HuffBlock(FixedLL(), FixedDist(), rest, out + Appended(out, t))
    else Fail(MaxSizeExceeded, out + Appended(out, t)[..Room(out)])
  }

  lemma LiteralDecodes(b: byte, rest: seq<bool>, out: seq<byte>)
    ensures HuffBlock(FixedLL(), FixedDist(), TokenBits(Lit(b)) + rest, out) == AfterToken(Lit(b), rest, out)
  {
    FixedCode(FixedLL(), b);
    DecodeCode(FixedLL(), b, rest);
    assert out + [] == out;
  }

  lemma PeriodicCut(out: seq<byte>, d: nat, n: nat)
    requires 1 <= d <= |out|
    ensures n > Room(out) ==> Periodic(out, d, n)[..Room(out)] == Periodic(out, d, Room(out))
  {
  }

  lemma CopyDecodes(len: nat, dist: nat, rest: seq<bool>, out: seq<byte>)
    requires Encodable(Match(len, dist)) && dist <= |out|
    ensures HuffBlock(FixedLL(), FixedDist(), TokenBits(Match(len, dist)) + rest, out) ==
            AfterToken(Match(len, dist), rest, out)
  {
    var sym, after := MatchDecodes(len, dist, rest);
    PeriodicCut(out, dist, len);
  }

  lemma TokenDecodes(t: Token, rest: seq<bool>, out: seq<byte>)
    requires Encodable(t) && (t.Match? ==> t.dist <= |out|)
    ensures HuffBlock(FixedLL(), FixedDist(), TokenBits(t) + rest, out) == AfterToken(t, rest, out)
  {
    match t
    case Lit(b) => LiteralDecodes(b, rest, out);
    case Match(len, dist) => CopyDecodes(len, dist, rest, out);
  }

  // ---- The whole block ----

  /** A true copy continues the output with period `dist`. */
  lemma CopyIsPeriodic(d: seq<byte>, pos: nat, len: nat, dist: nat)
    requires IsCopy(d, pos, len, dist)
    ensures d[pos..pos + len] == Periodic(d[..pos], dist, len)
  {
    forall i | 0 <= i < len ensures d[pos + i] == d[pos - dist + i % dist] {
      CopyAt(d, pos, len, dist, i);
    }
  }

  lemma {:induction false} CopyAt(d: seq<byte>, pos: nat, len: nat, dist: nat, i: nat)
    requires IsCopy(d, pos, len, dist) && i < len
    ensures d[pos + i] == d[pos - dist + i % dist]
  {
    assert d[pos + i] == d[pos + i - dist];
    if i >= dist {
      CopyAt(d, pos, len, dist, i - dist);
      ModShift(i, dist);
    } else {
      SmallModulus(i, dist);
    }
  }

  /** Every token extends the decoded prefix to a longer prefix of the input. */
  lemma TokenExtends(d: seq<byte>, pos: nat, t: Token)
    requires pos < |d| && t == TokenAt(d, pos)
    ensures Encodable(t) && 1 <= Span(t) <= |d| - pos && (t.Match? ==> t.dist <= pos)
    ensures d[..pos] + Appended(d[..pos], t) == d[..pos + Span(t)]
  {
    SearchSound(d, pos);
    if t.Match? { CopyIsPeriodic(d, pos, t.len, t.dist); }
  }

  ghost function Capped(d: seq<byte>, rest: seq<bool>): Step
  {
    if |d| <= MAX_INFLATE_SIZE then Done(d, rest) else Fail(MaxSizeExceeded, d[..MAX_INFLATE_SIZE])
  }

  lemma EndDecodes(out: seq<byte>, rest: seq<bool>)
    ensures HuffBlock(FixedLL(), FixedDist(), EobBits() + rest, out) == Done(out, rest)
  {
    FixedCode(FixedLL(), 256);
    DecodeCode(FixedLL(), 256, rest);
  }

  lemma StepDecodes(d: seq<byte>, pos: nat, t: Token, next: nat, bits: seq<bool>, goal: Step)
    requires pos < |d| && pos <= MAX_INFLATE_SIZE && t == TokenAt(d, pos) && next == pos + Span(t) <= |d|
    requires if next <= MAX_INFLATE_SIZE then goal == HuffBlock(FixedLL(), FixedDist(), bits, d[..next])
      else goal == Fail(MaxSizeExceeded, d[..MAX_INFLATE_SIZE])
    ensures HuffBlock(FixedLL(), FixedDist(), TokenBits(t) + bits, d[..pos]) == goal
  {
    TokenExtends(d, pos, t);
    StepTo(t, bits, d[..pos], d[..next], goal, d);
  }

  lemma CutAtLimit(out: seq<byte>, more: seq<byte>, d: seq<byte>)
    requires |out| <= MAX_INFLATE_SIZE < |out + more| && out + more <= d
    ensures out + more[..Room(out)] == d[..MAX_INFLATE_SIZE]
  {
    assert (out + more)[..MAX_INFLATE_SIZE] == out + more[..Room(out)];
  }

  lemma StepTo(t: Token, bits: seq<bool>, out: seq<byte>, out': seq<byte>, goal: Step, d: seq<byte>)
    requires Encodable(t) && (t.Match? ==> t.dist <= |out|) && |out| <= MAX_INFLATE_SIZE
    requires out' == out + Appended(out, t) && out' <= d
    requires if |out'| <= MAX_INFLATE_SIZE then goal == HuffBlock(FixedLL(), FixedDist(), bits, out')
      else goal == Fail(MaxSizeExceeded, d[..MAX_INFLATE_SIZE])
    ensures HuffBlock(FixedLL(), FixedDist(), TokenBits(t) + bits, out) == goal
  {
    TokenDecodes(t, bits, out);
    if |out'| > MAX_INFLATE_SIZE { CutAtLimit(out, Appended(out, t), d); }
  }

  lemma {:induction false} TokensDecode(d: seq<byte>, pos: nat, ts: seq<Token>, rest: seq<bool>)
    requires pos <= |d| && pos <= MAX_INFLATE_SIZE && ts == Tokens(d, pos)
    ensures HuffBlock(FixedLL(), FixedDist(), TokensBits(ts) + (EobBits() + rest), d[..pos]) == Capped(d, rest)
    decreases |d| - pos
  {
    var tail := EobBits() + rest;
    if pos == |d| {
      EndDecodes(d, rest);
      assert TokensBits([]) + tail == tail && d[..pos] == d;
    } else {
      var t, next, ts' := TokensUnfold(d, pos, ts);
      if next <= MAX_INFLATE_SIZE { TokensDecode(d, next, ts', rest); }
      TokensBitsCons(t, ts');
      Assoc(TokenBits(t), TokensBits(ts'), tail);
      StepDecodes(d, pos, t, next, TokensBits(ts') + tail, Capped(d, rest));
    }
  }

  /**
    Inflate undoes deflate: whatever bytes follow the compressed stream, inflating gives
    back the input, or the input cut at the output limit together with the limit error.
   */
  lemma InflateUndoesDeflate(d: seq<byte>, trailer: seq<byte>)
    ensures |d| <= MAX_INFLATE_SIZE ==>
      Inflated(DeflateRaw(d) + trailer).Done? && Inflated(DeflateRaw(d) + trailer).out == d
    ensures |d| > MAX_INFLATE_SIZE ==>
      Inflated(DeflateRaw(d) + trailer) == Fail(MaxSizeExceeded, d[..MAX_INFLATE_SIZE])
  {
    var ts := Tokens(d, 0);
    var block := BlockBits(ts);
    PackRoundTrip(block);
    BytesToBitsAppend(DeflateRaw(d), trailer);
    var rest := Zeros(8 * |DeflateRaw(d)| - |block|) + BytesToBits(trailer);
    Assoc(block, Zeros(8 * |DeflateRaw(d)| - |block|), BytesToBits(trailer));
    FinalFixedBlock(ts, rest);
    TokensDecode(d, 0, ts, rest);
    assert d[..0] == [];
  }

  /** The three header bits announce a final fixed-Huffman block. */
  lemma FinalFixedBlock(ts: seq<Token>, rest: seq<bool>)
    ensures var body := HuffBlock(FixedLL(), FixedDist(), TokensBits(ts) + (EobBits() + rest), []);
      Blocks(BlockBits(ts) + rest, []) ==
        match body
        case Fail(e, o) => body
        case Done(o, r) => if |o| > MAX_INFLATE_SIZE then Fail(MaxSizeExceeded, o) else body
  {
    var tail := TokensBits(ts) + (EobBits() + rest);
    Assoc(Lsb(1, 1) + Lsb(1, 2) + TokensBits(ts), EobBits(), rest);
    Assoc(Lsb(1, 1) + Lsb(1, 2), TokensBits(ts), EobBits() + rest);
    Assoc(Lsb(1, 1), Lsb(1, 2), tail);
    assert Pow2(1) == 2 && Pow2(2) == 4;
    FieldOf(1, 1, Lsb(1, 2) + tail);
    FieldOf(1, 2, tail);
  }

  // ---- Expansion ----

  lemma LengthCost(len: nat, li: nat)
    requires MIN_M <= len <= MAX_M && li == SymbolOf(LEN_BASE, len, |LEN_BASE|)
    ensures |LengthBits(li, len)| <= if len <= 10 then 7 else 13
  {
    LengthSplits(len, li);
    assert LEN_BASE[7] == 10;
    if li > 8 { assert len >= 13; }
  }

  lemma TokenCost(t: Token)
    requires Encodable(t)
    ensures |TokenBits(t)| <= 9 * Span(t)
  {
    if t.Match? {
      var li := SymbolOf(LEN_BASE, t.len, |LEN_BASE|);
      var di := SymbolOf(DIST_BASE, t.dist, |DIST_BASE|);
      LengthCost(t.len, li);
      DistanceSplits(t.dist, di);
    }
  }

  lemma {:induction false} TokensCost(d: seq<byte>, pos: nat, ts: seq<Token>)
    requires pos <= |d| && ts == Tokens(d, pos)
    ensures |TokensBits(ts)| <= 9 * (|d| - pos)
    decreases |d| - pos
  {
    if pos < |d| {
      var t, next, ts' := TokensUnfold(d, pos, ts);
      SearchSound(d, pos);
      TokensBitsCons(t, ts');
      TokenCost(t);
      TokensCost(d, next, ts');
    }
  }

  /** Compression never costs more than nine bits a byte, plus header and end mark. */
  lemma ExpansionBound(d: seq<byte>)
    ensures 8 * |DeflateRaw(d)| <= 9 * |d| + 10 + 7
    ensures |d| <= 932066 ==> |DeflateRaw(d)| <= 0x10_0000
  {
    TokensCost(d, 0, Tokens(d, 0));
  }
}
