/**
  The fixed-Huffman DEFLATE encoder: a greedy LZ77 parse over hash chains, described by
  what the chains mean, and the array-based matcher and bit emitter proved to produce it.
 */
module Deflate {
  import opened Bits
  import opened BitStreams
  import opened DeflateTables

  const MIN_M: nat := 3
  const MAX_M: nat := 258
  const WIN: nat := 32768
  const CHAIN: nat := 32
  const HSIZE: nat := 16384
  const HMASK: nat := HSIZE - 1
  const NIL := -1

  datatype Token = Lit(b: byte) | Match(len: nat, dist: nat)

  // ---- The parse ----

  function Hash3(d: seq<byte>, p: nat): nat
    requires p + 2 < |d|
  {
    Xor(Xor(Shl(d[p], 10), Shl(d[p + 1], 5)), d[p + 2])
  }

  function Bucket(d: seq<byte>, p: nat): (b: nat)
    requires p + 2 < |d|
    ensures b < HSIZE
  {
    Powers();
    SplitWord(Hash3(d, p), 14);
    And(Hash3(d, p), HMASK)
  }

  /** Length of the common run at `a` and `b`, at most MAX_M, the first `k` bytes known equal. */
  function MLenFrom(d: seq<byte>, a: nat, b: nat, k: nat): (r: nat)
    requires k <= MAX_M && a + k <= |d| && b + k <= |d|
    ensures k <= r <= MAX_M && a + r <= |d| && b + r <= |d|
    decreases MAX_M - k
  {
    if k == MAX_M || a + k == |d| || b + k == |d| || d[a + k] != d[b + k] then k
    else MLenFrom(d, a, b, k + 1)
  }

  function MLen(d: seq<byte>, a: nat, b: nat): nat
    requires a <= |d| && b <= |d|
  {
    MLenFrom(d, a, b, 0)
  }

  /** The last indexed position before `p` in bucket `b`, or NIL. */
  function LastIn(d: seq<byte>, p: nat, b: nat): (q: int)
    requires p <= |d|
    ensures NIL <= q < p && (q >= 0 ==> q + 2 < |d|)
  {
    if p == 0 then NIL
    else if p + 1 < |d| && Bucket(d, p - 1) == b then p - 1
    else LastIn(d, p - 1, b)
  }

  /** The chain entry after position `q`: the previous one in the same bucket. */
  function Next(d: seq<byte>, q: nat): (r: int)
    requires q + 2 < |d|
    ensures NIL <= r < q && (r >= 0 ==> r + 2 < |d|)
  {
    LastIn(d, q, Bucket(d, q))
  }

  datatype Found = Found(len: nat, dist: nat)

  /** The better of the best match so far and candidate `cp`; the earlier one on a tie. */
  function Better(d: seq<byte>, pos: nat, cp: nat, best: Found): Found
    requires cp < pos <= |d|
  {
    var ml := MLen(d, pos, cp);
    if ml > best.len then Found(ml, pos - cp) else best
  }

  /** Follow a chain from candidate `cp`, keeping the first longest match seen. */
  function Search(d: seq<byte>, pos: nat, cp: int, depth: nat, best: Found): Found
    requires NIL <= cp < pos <= |d| && (cp >= 0 ==> cp + 2 < |d|)
    decreases cp
  {
    if cp == NIL || depth >= CHAIN || pos - cp > WIN then best
    else
      var best' := Better(d, pos, cp, best);
      if best' != best && best'.len >= 32 then best'
      else Search(d, pos, Next(d, cp), depth + 1, best')
  }

  function BestMatch(d: seq<byte>, pos: nat): Found
    requires pos + 2 < |d|
  {
    Search(d, pos, Next(d, pos), 0, Found(0, 0))
  }

  function TokenAt(d: seq<byte>, pos: nat): Token
    requires pos < |d|
  {
    if pos + MIN_M > |d| then Lit(d[pos])
    else
      var best := BestMatch(d, pos);
      if best.len >= MIN_M then Match(best.len, best.dist) else Lit(d[pos])
  }

  function Span(t: Token): nat
  {
    match t case Lit(_) => 1 case Match(len, _) => len
  }

  function Tokens(d: seq<byte>, pos: nat): seq<Token>
    requires pos <= |d|
    decreases |d| - pos
  {
    if pos == |d| then []
    else
      var t := TokenAt(d, pos);
      SearchSound(d, pos);
      [t] + Tokens(d, pos + Span(t))
  }

  // ---- The bits ----

  ghost predicate Encodable(t: Token)
  {
    t.Match? ==> MIN_M <= t.len <= MAX_M && 1 <= t.dist <= WIN
  }

  function TokenBits(t: Token): seq<bool>
  {
    match t
    case Lit(b) => Msb(LLCode(b), LLBits(b))
    case Match(len, dist) =>
      var li := SymbolOf(LEN_BASE, len, |LEN_BASE|);
      var di := SymbolOf(DIST_BASE, dist, |DIST_BASE|);
      LengthBits(li, len) + DistBits(di, dist)
  }

  /** A symbol's code, then the amount of `v` over its base as extra bits. */
  function CodeWithExtra(code: nat, len: nat, v: nat, base: nat, xtra: nat): seq<bool>
  {
    Msb(code, len) + Lsb(if v >= base then v - base else 0, xtra)
  }

  function LengthBits(li: nat, len: nat): seq<bool>
    requires li < |LEN_BASE|
  {
    CodeWithExtra(LLCode(257 + li), LLBits(257 + li), len, LEN_BASE[li], LEN_XTRA[li])
  }

  function DistBits(di: nat, dist: nat): seq<bool>
    requires di < |DIST_BASE|
  {
    CodeWithExtra(di, 5, dist, DIST_BASE[di], DIST_XTRA[di])
  }

  function TokensBits(ts: seq<Token>): seq<bool>
  {
    if ts == [] then [] else TokenBits(ts[0]) + TokensBits(ts[1..])
  }

  function EobBits(): seq<bool>
  {
    Msb(LLCode(256), LLBits(256))
  }

  /** One final block with the fixed codes. */
  function BlockBits(ts: seq<Token>): seq<bool>
  {
    Lsb(1, 1) + Lsb(1, 2) + TokensBits(ts) + EobBits()
  }

  function DeflateRaw(d: seq<byte>): seq<byte>
  {
    Pack(BlockBits(Tokens(d, 0)))
  }

  // ---- What the search finds ----

  /** A found match is a true copy from inside the window. */
  ghost predicate IsCopy(d: seq<byte>, pos: nat, len: nat, dist: nat)
  {
    && len <= MAX_M && pos + len <= |d| && 1 <= dist <= WIN && dist <= pos
    && forall j :: pos <= j < pos + len ==> d[j] == d[j - dist]
  }

  /** `MLen` is exactly the longest common run that the format can express. */
  lemma {:induction false} MLenIsRun(d: seq<byte>, a: nat, b: nat, k: nat)
    requires k <= MAX_M && a + k <= |d| && b + k <= |d|
    ensures var r := MLenFrom(d, a, b, k);
      && (forall j :: a + k <= j < a + r ==> d[j] == d[j - a + b])
      && (r == MAX_M || a + r == |d| || b + r == |d| || d[a + r] != d[b + r])
    decreases MAX_M - k
  {
    if k < MAX_M && a + k < |d| && b + k < |d| && d[a + k] == d[b + k] { MLenIsRun(d, a, b, k + 1); }
  }

  lemma BetterIsCopy(d: seq<byte>, pos: nat, cp: nat, best: Found)
    requires cp < pos <= |d| && pos - cp <= WIN
    requires best.len == 0 || IsCopy(d, pos, best.len, best.dist)
    ensures var b := Better(d, pos, cp, best);
      b.len == 0 || IsCopy(d, pos, b.len, b.dist)
  {
    MLenIsRun(d, pos, cp, 0);
  }

  lemma {:induction false} SearchIsCopy(d: seq<byte>, pos: nat, cp: int, depth: nat, best: Found)
    requires NIL <= cp < pos <= |d| && (cp >= 0 ==> cp + 2 < |d|)
    requires best.len == 0 || IsCopy(d, pos, best.len, best.dist)
    ensures var b := Search(d, pos, cp, depth, best);
      b.len == 0 || IsCopy(d, pos, b.len, b.dist)
    decreases cp
  {
    if cp != NIL && depth < CHAIN && pos - cp <= WIN {
      var best' := Better(d, pos, cp, best);
      BetterIsCopy(d, pos, cp, best);
      SearchIsCopy(d, pos, Next(d, cp), depth + 1, best');
    }
  }

  lemma SearchSound(d: seq<byte>, pos: nat)
    requires pos < |d|
    ensures var t := TokenAt(d, pos);
      Encodable(t) && 1 <= Span(t) <= |d| - pos && (t.Match? ==> IsCopy(d, pos, t.len, t.dist))
  {
    if pos + MIN_M <= |d| {
      SearchIsCopy(d, pos, Next(d, pos), 0, Found(0, 0));
    }
  }

  /** The `k`-th candidate of a chain starting at `cp`, NIL past its end. */
  function Candidate(d: seq<byte>, cp: int, k: nat): (q: int)
    requires NIL <= cp < |d| && (cp >= 0 ==> cp + 2 < |d|)
    ensures NIL <= q <= cp && (q >= 0 ==> q + 2 < |d|)
    decreases k
  {
    if k == 0 || cp == NIL then cp else Candidate(d, Next(d, cp), k - 1)
  }

  lemma {:induction false} SearchGrows(d: seq<byte>, pos: nat, cp: int, depth: nat, best: Found)
    requires NIL <= cp < pos <= |d| && (cp >= 0 ==> cp + 2 < |d|)
    ensures Search(d, pos, cp, depth, best).len >= best.len
    decreases cp
  {
    if cp != NIL && depth < CHAIN && pos - cp <= WIN {
      SearchGrows(d, pos, Next(d, cp), depth + 1, Better(d, pos, cp, best));
    }
  }

  /** Candidate `q` was either too far away or not better than what was found. */
  ghost predicate Beaten(d: seq<byte>, pos: nat, q: int, found: nat)
    requires NIL <= q < pos <= |d|
  {
    q == NIL || pos - q > WIN || found >= 32 || found >= MLen(d, pos, q)
  }

  /** Unless it settles for 32 bytes, the search beats every candidate it may look at. */
  lemma {:induction false} SearchIsLongest(d: seq<byte>, pos: nat, cp: int, depth: nat, best: Found, k: nat, found: nat)
    requires NIL <= cp < pos <= |d| && (cp >= 0 ==> cp + 2 < |d|)
    requires depth + k < CHAIN && found == Search(d, pos, cp, depth, best).len
    ensures Beaten(d, pos, Candidate(d, cp, k), found)
    decreases cp
  {
    if cp != NIL && pos - cp <= WIN && found < 32 {
      var best' := Better(d, pos, cp, best);
      var next := Next(d, cp);
      if k == 0 {
        SearchGrows(d, pos, next, depth + 1, best');
      } else {
        SearchIsLongest(d, pos, next, depth + 1, best', k - 1, found);
      }
    }
  }

  // ---- The encoder ----

  /** What the two chain arrays hold once every position before `pos` is indexed. */
  ghost predicate Chains(head: seq<int>, prev: seq<int>, d: seq<byte>, pos: nat)
  {
    && |head| == HSIZE && |prev| == |d| && pos <= |d|
    && (forall b: nat :: b < HSIZE ==> head[b] == LastIn(d, pos, b))
    && (forall q: nat :: q < pos && q + 2 < |d| ==> prev[q] == Next(d, q))
  }

  method InsertPos(d: seq<byte>, pos: nat, head: array<int>, prev: array<int>)
    requires head != prev && pos < |d| && Chains(head[..], prev[..], d, pos)
    modifies head, prev
    ensures Chains(head[..], prev[..], d, pos + 1)
  {
    if pos + 2 < |d| {
      var bucket := Bucket(d, pos);
      prev[pos] := head[bucket];
      head[bucket] := pos;
    }
  }

  method FindMatch(d: seq<byte>, pos: nat, head: array<int>, prev: array<int>) returns (best: Found)
    requires pos + 2 < |d| && Chains(head[..], prev[..], d, pos)
    ensures best == BestMatch(d, pos)
  {
    var cp := head[Bucket(d, pos)];
    best := Found(0, 0);
    var depth := 0;
    while cp != NIL && depth < CHAIN
      invariant NIL <= cp < pos && (cp >= 0 ==> cp + 2 < |d|)
      invariant Search(d, pos, cp, depth, best) == BestMatch(d, pos)
      decreases cp
    {
      if pos - cp > WIN {
        break;
      }
      var ml := MLen(d, pos, cp);
      if ml > best.len {
        best := Found(ml, pos - cp);
        if best.len >= MAX_M || best.len >= 32 {
          return;
        }
      }
      assert prev[..][cp] == Next(d, cp);
      cp := prev[cp];
      depth := depth + 1;
    }
  }

  method EmitLiteral(bw: BitWriter, b: byte)
    requires bw.Valid()
    modifies bw
    ensures bw.Valid() && bw.Written() == old(bw.Written()) + TokenBits(Lit(b))
  {
    FixedCode(FixedLL(), b);
    bw.PutMsb(LLCode(b), LLBits(b));
  }

  method EmitMatch(bw: BitWriter, len: nat, dist: nat)
    requires bw.Valid() && Encodable(Match(len, dist))
    modifies bw
    ensures bw.Valid() && bw.Written() == old(bw.Written()) + TokenBits(Match(len, dist))
  {
    ghost var before := bw.Written();
    var li := FindSymbol(LEN_BASE, len);
    EmitLength(bw, li, len);
    var di := FindSymbol(DIST_BASE, dist);
    EmitDist(bw, di, dist);
    Assoc(before, LengthBits(li, len), DistBits(di, dist));
  }

  method EmitSymbol(bw: BitWriter, code: nat, len: nat, v: nat, base: nat, xtra: nat)
    requires bw.Valid() && len <= 16 && code < Pow2(len) && xtra <= 16 && base <= v < base + Pow2(xtra)
    modifies bw
    ensures bw.Valid() && bw.Written() == old(bw.Written()) + CodeWithExtra(code, len, v, base, xtra)
  {
    Assoc(bw.Written(), Msb(code, len), Lsb(v - base, xtra));
    bw.PutMsb(code, len);
    if xtra > 0 {
      bw.Put(v - base, xtra);
    }
  }

  method EmitLength(bw: BitWriter, li: nat, len: nat)
    requires bw.Valid() && MIN_M <= len <= MAX_M && li == SymbolOf(LEN_BASE, len, |LEN_BASE|)
    modifies bw
    ensures bw.Valid() && bw.Written() == old(bw.Written()) + LengthBits(li, len)
  {
    LengthSplits(len, li);
    FixedCode(FixedLL(), 257 + li);
    EmitSymbol(bw, LLCode(257 + li), LLBits(257 + li), len, LEN_BASE[li], LEN_XTRA[li]);
  }

  method EmitDist(bw: BitWriter, di: nat, dist: nat)
    requires bw.Valid() && 1 <= dist <= WIN && di == SymbolOf(DIST_BASE, dist, |DIST_BASE|)
    modifies bw
    ensures bw.Valid() && bw.Written() == old(bw.Written()) + DistBits(di, dist)
  {
    DistanceSplits(dist, di);
    FixedDistCode(FixedDist(), di);
    EmitSymbol(bw, di, 5, dist, DIST_BASE[di], DIST_XTRA[di]);
  }

  lemma TokensBitsCons(t: Token, rest: seq<Token>)
    ensures TokensBits([t] + rest) == TokenBits(t) + TokensBits(rest)
  {
    assert ([t] + rest)[1..] == rest;
  }

  lemma TokensUnfold(d: seq<byte>, pos: nat, ts: seq<Token>) returns (t: Token, next: nat, tail: seq<Token>)
    requires pos < |d| && ts == Tokens(d, pos)
    ensures t == TokenAt(d, pos) && next == pos + Span(t) && pos < next <= |d|
    ensures ts == [t] + tail && tail == Tokens(d, next)
  {
    SearchSound(d, pos);
    t := TokenAt(d, pos);
    next := pos + Span(t);
    tail := Tokens(d, next);
  }

  /** Emitting the next token keeps the promised stream. */
  lemma EmitNext(written: seq<bool>, t: Token, rest: seq<Token>)
    ensures written + TokensBits([t] + rest) == (written + TokenBits(t)) + TokensBits(rest)
  {
    TokensBitsCons(t, rest);
    Assoc(written, TokenBits(t), TokensBits(rest));
  }

  method InsertRun(d: seq<byte>, start: nat, end: nat, head: array<int>, prev: array<int>)
    requires head != prev && start <= end <= |d| && Chains(head[..], prev[..], d, start)
    modifies head, prev
    ensures Chains(head[..], prev[..], d, end)
  {
    var pos := start;
    while pos < end
      invariant pos <= end && Chains(head[..], prev[..], d, pos)
    {
      InsertPos(d, pos, head, prev);
      pos := pos + 1;
    }
  }

  /** Emit the token at `pos` and index the positions it covers. */
  method EmitAt(bw: BitWriter, d: seq<byte>, pos: nat, head: array<int>, prev: array<int>) returns (next: nat)
    requires bw.Valid() && head != prev && pos < |d| && Chains(head[..], prev[..], d, pos)
    modifies bw, head, prev
    ensures bw.Valid() && bw.Written() == old(bw.Written()) + TokenBits(TokenAt(d, pos))
    ensures next == pos + Span(TokenAt(d, pos)) <= |d| && Chains(head[..], prev[..], d, next)
  {
    SearchSound(d, pos);
    if pos + MIN_M > |d| {
      EmitLiteral(bw, d[pos]);
      assert forall b: nat :: b < HSIZE ==> LastIn(d, pos + 1, b) == LastIn(d, pos, b);
      return pos + 1;
    }
    var best := FindMatch(d, pos, head, prev);
    if best.len >= MIN_M {
      EmitMatch(bw, best.len, best.dist);
      next := pos + best.len;
    } else {
      EmitLiteral(bw, d[pos]);
      next := pos + 1;
    }
    InsertRun(d, pos, next, head, prev);
  }

  /** Parse and emit the whole input. */
  method EmitTokens(bw: BitWriter, d: seq<byte>)
    requires bw.Valid()
    modifies bw
    ensures bw.Valid() && bw.Written() == old(bw.Written()) + TokensBits(Tokens(d, 0))
  {
    var head := new int[HSIZE](_ => NIL);
    var prev := new int[|d|](_ => NIL);
    var pos := 0;
    ghost var rest := Tokens(d, 0);
    ghost var goal := bw.Written() + TokensBits(rest);
    while pos < |d|
      invariant pos <= |d| && bw.Valid() && Chains(head[..], prev[..], d, pos)
      invariant rest == Tokens(d, pos) && bw.Written() + TokensBits(rest) == goal
    {
      ghost var t, next, tail := TokensUnfold(d, pos, rest);
      EmitNext(bw.Written(), t, tail);
      pos := EmitAt(bw, d, pos, head, prev);
      assert pos == next;
      rest := tail;
    }
    assert bw.Written() + [] == goal;
  }

  /** Compress into one final fixed-Huffman block. Positions are kept as 32-bit signed integers. */
  method Compress(input: seq<byte>) returns (out: seq<byte>)
    requires |input| <= 0x8000_0000
    ensures out == DeflateRaw(input)
  {
    var bw := new BitWriter();
    assert Pow2(1) == 2 && Pow2(2) == 4;
    bw.Put(1, 1);
    bw.Put(1, 2);
    assert bw.Written() == Lsb(1, 1) + Lsb(1, 2);
    EmitTokens(bw, input);
    FixedCode(FixedLL(), 256);
    bw.PutMsb(LLCode(256), LLBits(256));
    out := bw.Finish();
  }
}
