/**
  The DEFLATE decoder: a meaning for every bit stream (sections 3.2.3 to 3.2.7 of
  RFC 1951 plus the output limit), and the byte-at-a-time decoder proved to compute it.
 */
module Inflate {
  import opened Bits
  import opened BitStreams
  import opened Huffman
  import opened DeflateTables

  const MAX_INFLATE_SIZE: nat := 1048576

  /** How decoding part of a stream ends: the output so far and the rest, or the error. */
  datatype Step = Done(out: seq<byte>, rest: seq<bool>) | Fail(error: InflateErr, out: seq<byte>)

  // ---- The meaning of a stream ----

  /** `n` bytes continuing `out` with period `d`. */
  function Periodic(out: seq<byte>, d: nat, n: nat): (s: seq<byte>)
    requires 1 <= d <= |out|
    ensures |s| == n
  {
    seq(n, i requires 0 <= i < n => out[|out| - d + i % d])
  }

  function Room(out: seq<byte>): nat
  {
    if |out| < MAX_INFLATE_SIZE then MAX_INFLATE_SIZE - |out| else 0
  }

  /** A table entry plus its extra bits. */
  function WithExtra(base: nat, xtra: nat, bits: seq<bool>): (r: Parse<nat>)
    ensures r.Got? ==> |r.rest| <= |bits| && r.value >= base
  {
    match Field(bits, xtra)
    case Bad(e) => Bad(e)
    case Got(extra, rest) => Got(base + extra, rest)
  }

  function LengthOf(sym: nat, bits: seq<bool>): (r: Parse<nat>)
    requires sym > 256
    ensures r.Got? ==> |r.rest| <= |bits| && r.value >= 3
  {
    if sym > 285 then Bad(InvalidData) else WithExtra(LEN_BASE[sym - 257], LEN_XTRA[sym - 257], bits)
  }

  ghost function DistanceOf(dist: seq<nat>, bits: seq<bool>): (r: Parse<nat>)
    ensures r.Got? ==> |r.rest| < |bits| && r.value >= 1
  {
    match DecodeSym(dist, bits)
    case Bad(e) => Bad(e)
    case Got(dsym, rest) =>
      if dsym > 29 then Bad(InvalidData) else WithExtra(DIST_BASE[dsym], DIST_XTRA[dsym], rest)
  }

  datatype Ref = Ref(len: nat, dist: nat)

  /** The length and distance announced by literal/length symbol `sym` > 256. */
  ghost function BackRef(sym: nat, dist: seq<nat>, bits: seq<bool>): (r: Parse<Ref>)
    requires sym > 256
    ensures r.Got? ==> |r.rest| < |bits| && r.value.len >= 3 && r.value.dist >= 1
  {
    match LengthOf(sym, bits)
    case Bad(e) => Bad(e)
    case Got(len, r1) =>
      match DistanceOf(dist, r1)
      case Bad(e) => Bad(e)
      case Got(d, r2) => Got(Ref(len, d), r2)
  }

  ghost function HuffBlock(ll: seq<nat>, dist: seq<nat>, bits: seq<bool>, out: seq<byte>): (r: Step)
    ensures r.Done? ==> |r.rest| < |bits|
    decreases |bits|
  {
    match DecodeSym(ll, bits)
    case Bad(e) => Fail(e, out)
    case Got(sym, r1) =>
      if sym < 256 then
        if Room(out) == 0 then Fail(MaxSizeExceeded, out) else HuffBlock(ll, dist, r1, out + [sym])
      else if sym == 256 then Done(out, r1)
      else
        match BackRef(sym, dist, r1)
        case Bad(e) => Fail(e, out)
        case Got(Ref(len, d), r2) =>
          if d > |out| then Fail(BadDistance, out)
          else if len > Room(out) then Fail(MaxSizeExceeded, out + Periodic(out, d, Room(out)))
          else HuffBlock(ll, dist, r2, out + Periodic(out, d, len))
  }

  function U16(bits: seq<bool>): (r: Parse<nat>)
    ensures r.Got? ==> |r.rest| <= |bits| && r.value <= 0xFFFF
  {
    match Field(bits, 8)
    case Bad(e) => Bad(e)
    case Got(lo, r1) =>
      match Field(r1, 8)
      case Bad(e) => Bad(e)
      case Got(hi, r2) => assert Pow2(8) == 256; Got(256 * hi + lo, r2)
  }

  /** The length of a stored block, after its byte-aligned LEN and NLEN fields. */
  function StoredHeader(bits: seq<bool>): (r: Parse<nat>)
    ensures r.Got? ==> |r.rest| <= |bits|
  {
    match U16(bits[|bits| % 8..])
    case Bad(e) => Bad(e)
    case Got(len, r1) =>
      match U16(r1)
      case Bad(e) => Bad(e)
      case Got(nlen, r2) => if len != 0xFFFF - nlen then Bad(InvalidData) else Got(len, r2)
  }

  function StoredCopy(n: nat, bits: seq<bool>, out: seq<byte>): (r: Step)
    ensures r.Done? ==> |r.rest| <= |bits|
  {
    if n == 0 then Done(out, bits)
    else if Room(out) == 0 then Fail(MaxSizeExceeded, out)
    else
      match Field(bits, 8)
      case Bad(e) => Fail(e, out)
      case Got(b, rest) => StoredCopy(n - 1, rest, out + [b])
  }

  function Stored(bits: seq<bool>, out: seq<byte>): (r: Step)
    ensures r.Done? ==> |r.rest| <= |bits|
  {
    match StoredHeader(bits)
    case Bad(e) => Fail(e, out)
    case Got(n, rest) => StoredCopy(n, rest, out)
  }

  /** The first `n` code lengths of the code-length alphabet, stored over `lens`. */
  function ReadClLens(n: nat, bits: seq<bool>, lens: seq<nat>): (r: Parse<seq<nat>>)
    requires n <= 19 && |lens| == 19 && forall j :: 0 <= j < 19 ==> lens[j] < 8
    ensures r.Got? ==> |r.value| == 19 && |r.rest| <= |bits| && forall j :: 0 <= j < 19 ==> r.value[j] < 8
    decreases n
  {
    if n == 0 then Got(lens, bits)
    else
      match ReadClLens(n - 1, bits, lens)
      case Bad(e) => Bad(e)
      case Got(ls, rest) =>
        match Field(rest, 3)
        case Bad(e) => Bad(e)
        case Got(l, rest') => Got(ls[CL_ORDER[n - 1] := l], rest')
  }

  /** A run of the length given by `least` plus an `n`-bit field. */
  function RunOf(what: nat, n: nat, least: nat, bits: seq<bool>): (r: Parse<seq<nat>>)
    ensures r.Got? ==> |r.value| >= least && |r.rest| <= |bits|
    ensures r.Got? ==> forall i :: 0 <= i < |r.value| ==> r.value[i] == what
  {
    match Field(bits, n)
    case Bad(e) => Bad(e)
    case Got(x, rest) => Got(seq(x + least, _ => what), rest)
  }

  /** The code lengths that one symbol of the code-length code stands for. */
  function Run(sym: nat, bits: seq<bool>, acc: seq<nat>): (r: Parse<seq<nat>>)
    ensures r.Got? ==> |r.value| >= 1 && |r.rest| <= |bits|
    ensures r.Got? && ValidLens(acc) ==> ValidLens(r.value)
  {
    if sym <= 15 then Got([sym], bits)
    else if sym == 16 then
      if acc == [] then Bad(InvalidData) else RunOf(acc[|acc| - 1], 2, 3, bits)
    else if sym == 17 then RunOf(0, 3, 3, bits)
    else if sym == 18 then RunOf(0, 7, 11, bits)
    else Bad(InvalidData)
  }

  /** The run-length coded code lengths, `acc` read so far of `total`. */
  ghost function RunLengths(cl: seq<nat>, bits: seq<bool>, acc: seq<nat>, total: nat): (r: Parse<seq<nat>>)
    requires |acc| <= total && ValidLens(acc)
    ensures r.Got? ==> |r.value| == total && ValidLens(r.value) && |r.rest| <= |bits|
    decreases total - |acc|
  {
    if |acc| == total then Got(acc, bits)
    else
      match DecodeSym(cl, bits)
      case Bad(e) => Bad(e)
      case Got(sym, r1) =>
        match Run(sym, r1, acc)
        case Bad(e) => Bad(e)
        case Got(run, r2) =>
          if |acc| + |run| > total then Bad(InvalidData) else RunLengths(cl, r2, acc + run, total)
  }

  /** The code of the code lengths. */
  ghost function ClTable(hclen: nat, bits: seq<bool>): (r: Parse<seq<nat>>)
    requires hclen <= 19
    ensures r.Got? ==> Fits(r.value) && |r.rest| <= |bits|
  {
    match ReadClLens(hclen, bits, seq(19, _ => 0))
    case Bad(e) => Bad(e)
    case Got(cl, rest) => if Fits(cl) then Got(cl, rest) else Bad(BadCode)
  }

  ghost function CodeLengths(hclen: nat, total: nat, bits: seq<bool>): (r: Parse<seq<nat>>)
    requires hclen <= 19
    ensures r.Got? ==> |r.value| == total && ValidLens(r.value) && |r.rest| <= |bits|
  {
    match ClTable(hclen, bits)
    case Bad(e) => Bad(e)
    case Got(cl, rest) => RunLengths(cl, rest, [], total)
  }

  function TwoFields(bits: seq<bool>, m: nat, n: nat): (r: Parse<(nat, nat)>)
    ensures r.Got? ==> |r.rest| <= |bits|
  {
    match Field(bits, m)
    case Bad(e) => Bad(e)
    case Got(a, r1) =>
      match Field(r1, n)
      case Bad(e) => Bad(e)
      case Got(b, r2) => Got((a, b), r2)
  }

  /** How many literal/length codes, how many codes in all, and how many code-length codes. */
  datatype Sizes = Sizes(hlit: nat, total: nat, hclen: nat)

  function TableSizes(bits: seq<bool>): (r: Parse<Sizes>)
    ensures r.Got? ==>
      r.value.hlit <= r.value.total <= 316 && r.value.hclen <= 19 && |r.rest| <= |bits|
  {
    match TwoFields(bits, 5, 5)
    case Bad(e) => Bad(e)
    case Got((hlit, hdist), r2) =>
      match Field(r2, 4)
      case Bad(e) => Bad(e)
      case Got(hclen, r3) =>
        assert Pow2(4) == 16;
        if hlit + 257 > 286 || hdist + 1 > 30 then Bad(InvalidData)
        else Got(Sizes(hlit + 257, hlit + 257 + (hdist + 1), hclen + 4), r3)
  }

  datatype Tables = Tables(ll: seq<nat>, dist: seq<nat>)

  /** The literal/length and distance tables are two length tables in a row. */
  function PairTables(hlit: nat, code: Parse<seq<nat>>): (r: Parse<Tables>)
    requires code.Got? ==> hlit <= |code.value|
    ensures r.Got? ==> code.Got? && r.rest == code.rest && Fits(r.value.ll) && Fits(r.value.dist)
  {
    match code
    case Bad(e) => Bad(e)
    case Got(lens, rest) =>
      if Fits(lens[..hlit]) && Fits(lens[hlit..]) then Got(Tables(lens[..hlit], lens[hlit..]), rest)
      else Bad(BadCode)
  }

  ghost function DynamicTables(bits: seq<bool>): (r: Parse<Tables>)
    ensures r.Got? ==> |r.rest| <= |bits| && Fits(r.value.ll) && Fits(r.value.dist)
  {
    match TableSizes(bits)
    case Bad(e) => Bad(e)
    case Got(s, rest) => PairTables(s.hlit, CodeLengths(s.hclen, s.total, rest))
  }

  ghost function Block(btype: nat, bits: seq<bool>, out: seq<byte>): (r: Step)
    ensures r.Done? ==> |r.rest| <= |bits|
  {
    if btype == 0 then Stored(bits, out)
    else if btype == 1 then HuffBlock(FixedLL(), FixedDist(), bits, out)
    else if btype == 2 then
      match DynamicTables(bits)
      case Bad(e) => Fail(e, out)
      case Got(Tables(ll, dist), rest) => HuffBlock(ll, dist, rest, out)
    else Fail(InvalidData, out)
  }

  /** Blocks up to and including the one marked final. */
  ghost function Blocks(bits: seq<bool>, out: seq<byte>): Step
    decreases |bits|
  {
    match Field(bits, 1)
    case Bad(e) => Fail(e, out)
    case Got(bfinal, r1) =>
      match Field(r1, 2)
      case Bad(e) => Fail(e, out)
      case Got(btype, r2) =>
        match Block(btype, r2, out)
        case Fail(e, o) => Fail(e, o)
        case Done(o, r3) =>
          if |o| > MAX_INFLATE_SIZE then Fail(MaxSizeExceeded, o)
          else if bfinal == 1 then Done(o, r3)
          else Blocks(r3, o)
  }

  // ---- The decoder ----

  /** The caller's output vector. */
  class ByteVec {
    var elems: seq<byte>
    constructor ()
      ensures elems == []
    {
      elems := [];
    }
  }

  /** The decoder has done what `spec` says of its reader and output. */
  ghost predicate Agrees(res: Result<()>, r: BitReader, out: ByteVec, spec: Step)
    reads r, out
  {
    && out.elems == spec.out
    && match spec
       case Done(_, rest) => res == Ok(()) && r.Valid() && r.Rest() == rest
       case Fail(e, _) => res == Err(e)
  }

  method CopyBack(out: ByteVec, d: nat, len: nat) returns (fits: bool)
    requires 1 <= d <= |out.elems|
    modifies out
    ensures fits <==> len <= Room(old(out.elems))
    ensures out.elems == old(out.elems) +
      Periodic(old(out.elems), d, if fits then len else Room(old(out.elems)))
  {
    var start := |out.elems| - d;
    ghost var before := out.elems;
    for copied := 0 to len
      invariant copied <= Room(before)
      invariant out.elems == before + Periodic(before, d, copied)
    {
      if |out.elems| >= MAX_INFLATE_SIZE {
        return false;
      }
      PeriodicStep(before, d, copied);
      out.elems := out.elems + [out.elems[start + copied]];
    }
    fits := true;
  }

  /** Copying from the output being extended continues its period. */
  lemma PeriodicNext(out: seq<byte>, d: nat, n: nat)
    requires 1 <= d <= |out|
    ensures Periodic(out, d, n + 1) == Periodic(out, d, n) + [out[|out| - d + n % d]]
  {
  }

  /** The byte `d` back is the one the period gives. */
  lemma CopiedByte(out: seq<byte>, d: nat, n: nat)
    requires 1 <= d <= |out|
    ensures (out + Periodic(out, d, n))[|out| - d + n] == out[|out| - d + n % d]
  {
    if n >= d { ModShift(n, d); } else { SmallModulus(n, d); }
  }

  lemma PeriodicStep(out: seq<byte>, d: nat, n: nat)
    requires 1 <= d <= |out|
    ensures var grown := out + Periodic(out, d, n);
      grown + [grown[|out| - d + n]] == out + Periodic(out, d, n + 1)
  {
    var grown, v := out + Periodic(out, d, n), out[|out| - d + n % d];
    PeriodicNext(out, d, n);
    CopiedByte(out, d, n);
    assert grown + [v] == out + (Periodic(out, d, n) + [v]);
  }

  lemma MulMono(p: nat, a: nat, b: nat)
    requires a <= b
    ensures p * a <= p * b
  {
    assert p * b == p * a + p * (b - a);
  }

  lemma DivMod(v: nat, p: nat) returns (lo: nat, hi: nat)
    requires p > 0
    ensures lo == v % p && hi == v / p
    ensures v == lo + p * hi && lo < p
  {
    lo, hi := v % p, v / p;
  }

  lemma DivUnique(x: nat, p: nat, q: nat, r: nat)
    requires p > 0 && r < p && x == p * q + r
    ensures x / p == q && x % p == r
  {
    var d := x / p;
    if d < q { MulMono(p, d + 1, q); }
    if d > q { MulMono(p, q + 1, d); }
  }

  lemma ModShift(n: nat, d: nat)
    requires n >= d > 0
    ensures (n - d) % d == n % d
  {
    var lo, hi := DivMod(n - d, d);
    assert n == d * (hi + 1) + lo by { assert d * (hi + 1) == d * hi + d; }
    DivUnique(n, d, hi + 1, lo);
  }

  lemma SmallModulus(n: nat, d: nat)
    requires n < d
    ensures n % d == n
  {
  }

  method CopyStored(n: nat, r: BitReader, out: ByteVec) returns (res: Result<()>)
    requires r.Valid()
    modifies r, out
    ensures Agrees(res, r, out, StoredCopy(n, old(r.Rest()), old(out.elems)))
  {
    ghost var spec := StoredCopy(n, r.Rest(), out.elems);
    for i := 0 to n
      invariant r.Valid() && StoredCopy(n - i, r.Rest(), out.elems) == spec
    {
      ghost var field := Field(r.Rest(), 8);
      if |out.elems| >= MAX_INFLATE_SIZE {
        return Err(MaxSizeExceeded);
      }
      assert Pow2(8) == 256;
      var b :- r.Read(8);
      out.elems := out.elems + [b];
    }
    res := Ok(());
  }

  method ReadStoredHeader(r: BitReader) returns (res: Result<nat>)
    requires r.Valid()
    modifies r
    ensures Reads(res, r, StoredHeader(old(r.Rest())))
  {
    r.AlignByte();
    var len :- ReadU16(r);
    var nlen :- ReadU16(r);
    if len != 0xFFFF - nlen {
      return Err(InvalidData);
    }
    res := Ok(len);
  }

  method DecodeStored(r: BitReader, out: ByteVec) returns (res: Result<()>)
    requires r.Valid()
    modifies r, out
    ensures Agrees(res, r, out, Stored(old(r.Rest()), old(out.elems)))
  {
    var len :- ReadStoredHeader(r);
    res := CopyStored(len, r, out);
  }

  method ReadU16(r: BitReader) returns (res: Result<nat>)
    requires r.Valid()
    modifies r
    ensures Reads(res, r, U16(old(r.Rest())))
  {
    ghost var bits := r.Rest();
    var lo :- r.Read(8);
    ghost var more := r.Rest();
    assert Field(bits, 8) == Got(lo, more);
    var hi :- r.Read(8);
    assert Field(more, 8) == Got(hi, r.Rest());
    res := Ok(256 * hi + lo);
  }

  /** Add the extra bits of a length or distance to its base, if it has any. */
  method ReadExtra(r: BitReader, base: nat, xtra: nat) returns (res: Result<nat>)
    requires r.Valid() && xtra <= 16
    modifies r
    ensures Reads(res, r, WithExtra(base, xtra, old(r.Rest())))
  {
    var extra := 0;
    if xtra > 0 {
      extra :- r.Read(xtra);
    }
    res := Ok(base + extra);
  }

  lemma LenBounds(i: nat)
    requires i < 29
    ensures LEN_XTRA[i] <= 5
  {
  }

  lemma DistBounds(i: nat)
    requires i < 30
    ensures DIST_XTRA[i] <= 13
  {
  }

  method ReadLength(sym: nat, r: BitReader) returns (res: Result<nat>)
    requires sym > 256 && r.Valid()
    modifies r
    ensures Reads(res, r, LengthOf(sym, old(r.Rest())))
  {
    if sym > 285 {
      return Err(InvalidData);
    }
    LenBounds(sym - 257);
    res := ReadExtra(r, LEN_BASE[sym - 257], LEN_XTRA[sym - 257]);
  }

  method ReadDistance(r: BitReader, dist: Huff, ghost dists: seq<nat>) returns (res: Result<nat>)
    requires r.Valid() && Represents(dist, dists)
    modifies r
    ensures Reads(res, r, DistanceOf(dists, old(r.Rest())))
  {
    var dsym :- Decode(dist, r, dists);
    if dsym > 29 {
      return Err(InvalidData);
    }
    DistBounds(dsym);
    res := ReadExtra(r, DIST_BASE[dsym], DIST_XTRA[dsym]);
  }

  method DecodeHuffmanBlock(r: BitReader, ll: Huff, dist: Huff, out: ByteVec,
                            ghost lls: seq<nat>, ghost dists: seq<nat>)
    returns (res: Result<()>)
    requires r.Valid() && Represents(ll, lls) && Represents(dist, dists)
    modifies r, out
    ensures Agrees(res, r, out, HuffBlock(lls, dists, old(r.Rest()), old(out.elems)))
  {
    ghost var spec := HuffBlock(lls, dists, r.Rest(), out.elems);
    while true
      invariant r.Valid() && HuffBlock(lls, dists, r.Rest(), out.elems) == spec
      decreases |r.Rest()|
    {
      var sym :- Decode(ll, r, lls);
      if sym < 256 {
        if |out.elems| >= MAX_INFLATE_SIZE {
          return Err(MaxSizeExceeded);
        }
        out.elems := out.elems + [sym];
      } else if sym == 256 {
        return Ok(());
      } else {
        var len :- ReadLength(sym, r);
        var distance :- ReadDistance(r, dist, dists);
        if distance == 0 || distance > |out.elems| {
          return Err(BadDistance);
        }
        var fits := CopyBack(out, distance, len);
        if !fits {
          return Err(MaxSizeExceeded);
        }
      }
    }
  }

  method ReadClTable(hclen: nat, r: BitReader) returns (res: Result<seq<nat>>)
    requires r.Valid() && hclen <= 19
    modifies r
    ensures Reads(res, r, ReadClLens(hclen, old(r.Rest()), seq(19, _ => 0)))
  {
    ghost var bits, zeros := r.Rest(), seq(19, _ => 0);
    var lens := new nat[19](_ => 0);
    assert lens[..] == zeros;
    for i := 0 to hclen
      invariant r.Valid() && ReadClLens(i, bits, zeros) == Got(lens[..], r.Rest())
    {
      ReadClFails(i + 1, hclen, bits, zeros);
      var l :- r.Read(3);
      ClOrderBound(i);
      ghost var before := lens[..];
      lens[CL_ORDER[i]] := l;
      assert lens[..] == before[CL_ORDER[i] := l];
    }
    res := Ok(lens[..]);
  }

  lemma ClOrderBound(i: nat)
    requires i < 19
    ensures CL_ORDER[i] < 19
  {
  }

  /** Once a prefix of the code-length table cannot be read, the table cannot. */
  lemma {:induction false} ReadClFails(i: nat, n: nat, bits: seq<bool>, lens: seq<nat>)
    requires i <= n <= 19 && |lens| == 19 && forall j :: 0 <= j < 19 ==> lens[j] < 8
    ensures ReadClLens(i, bits, lens).Bad? ==> ReadClLens(n, bits, lens) == ReadClLens(i, bits, lens)
  {
    if i < n { ReadClFails(i, n - 1, bits, lens); }
  }

  method Repeat(lens: array<nat>, i: nat, rep: nat, what: nat)
    requires i + rep <= lens.Length
    requires forall j :: i <= j < lens.Length ==> lens[j] == 0
    modifies lens
    ensures lens[..i + rep] == old(lens[..i]) + seq(rep, _ => what)
    ensures forall j :: i + rep <= j < lens.Length ==> lens[j] == 0
  {
    for k := 0 to rep
      invariant lens[..i + k] == old(lens[..i]) + seq(k, _ => what)
      invariant forall j :: i + k <= j < lens.Length ==> lens[j] == 0
    {
      lens[i + k] := what;
    }
  }

  /** Fill in the run that `sym` announces, after the `i` lengths already known. */
  method ReadRun(sym: nat, r: BitReader, lens: array<nat>, i: nat) returns (res: Result<nat>)
    requires r.Valid() && i <= lens.Length
    requires forall j :: i <= j < lens.Length ==> lens[j] == 0
    requires i < lens.Length
    modifies r, lens
    ensures var spec := Run(sym, old(r.Rest()), old(lens[..i]));
      if spec.Got? && i + |spec.value| <= lens.Length then
        && res == Ok(i + |spec.value|) && r.Valid() && r.Rest() == spec.rest
        && lens[..i + |spec.value|] == old(lens[..i]) + spec.value
        && forall j :: i + |spec.value| <= j < lens.Length ==> lens[j] == 0
      else res == Err(if spec.Got? then InvalidData else spec.error)
  {
    if sym <= 15 {
      lens[i] := sym;
      return Ok(i + 1);
    }
    if sym > 18 || (sym == 16 && i == 0) {
      return Err(InvalidData);
    }
    var x :- r.Read(if sym == 16 then 2 else if sym == 17 then 3 else 7);
    var rep := x + if sym == 18 then 11 else 3;
    if i + rep > lens.Length {
      return Err(InvalidData);
    }
    if sym == 16 {
      Repeat(lens, i, rep, lens[i - 1]);
    }
    res := Ok(i + rep);
  }

  method ReadRuns(r: BitReader, cl: Huff, total: nat, ghost cls: seq<nat>) returns (res: Result<seq<nat>>)
    requires r.Valid() && Represents(cl, cls)
    modifies r
    ensures Reads(res, r, RunLengths(cls, old(r.Rest()), [], total))
  {
    ghost var spec := RunLengths(cls, r.Rest(), [], total);
    var lens := new nat[total](_ => 0);
    var i := 0;
    assert lens[..0] == [];
    while i < total
      invariant i <= total && r.Valid() && ValidLens(lens[..i])
      invariant forall j :: i <= j < total ==> lens[j] == 0
      invariant RunLengths(cls, r.Rest(), lens[..i], total) == spec
    {
      ghost var acc := lens[..i];
      var sym :- Decode(cl, r, cls);
      ghost var run := Run(sym, r.Rest(), acc);
      i :- ReadRun(sym, r, lens, i);
      assert lens[..i] == acc + run.value;
    }
    assert lens[..i] == lens[..];
    res := Ok(lens[..]);
  }

  method ReadCodeLengths(hclen: nat, total: nat, r: BitReader) returns (res: Result<seq<nat>>)
    requires r.Valid() && hclen <= 19
    modifies r
    ensures Reads(res, r, CodeLengths(hclen, total, old(r.Rest())))
  {
    var clLens :- ReadClTable(hclen, r);
    var cl :- Build(clLens);
    res := ReadRuns(r, cl, total, clLens);
  }

  /** The two decoders of a dynamic block stand for the two tables of its header. */
  ghost predicate BuildsTables(res: Result<(Huff, Huff)>, r: BitReader, spec: Parse<Tables>)
    reads r
  {
    if spec.Got? then
      && res.Ok? && Represents(res.value.0, spec.value.ll) && Represents(res.value.1, spec.value.dist)
      && r.Valid() && r.Rest() == spec.rest
    else res == Err(spec.error)
  }

  method BuildPair(lens: seq<nat>, hlit: nat, r: BitReader) returns (res: Result<(Huff, Huff)>)
    requires hlit <= |lens| <= 0xFFFF && ValidLens(lens) && r.Valid()
    ensures BuildsTables(res, r, PairTables(hlit, Got(lens, r.Rest())))
  {
    var ll :- Build(lens[..hlit]);
    var dist :- Build(lens[hlit..]);
    res := Ok((ll, dist));
  }

  method ReadTwo(r: BitReader, m: nat, n: nat) returns (res: Result<(nat, nat)>)
    requires r.Valid() && 1 <= m <= 16 && 1 <= n <= 16
    modifies r
    ensures Reads(res, r, TwoFields(old(r.Rest()), m, n))
  {
    var a :- r.Read(m);
    var b :- r.Read(n);
    res := Ok((a, b));
  }

  method ReadSizes(r: BitReader) returns (res: Result<Sizes>)
    requires r.Valid()
    modifies r
    ensures Reads(res, r, TableSizes(old(r.Rest())))
  {
    var both :- ReadTwo(r, 5, 5);
    var (hlit, hdist) := both;
    var hclen :- r.Read(4);
    if hlit + 257 > 286 || hdist + 1 > 30 {
      return Err(InvalidData);
    }
    res := Ok(Sizes(hlit + 257, hlit + 257 + (hdist + 1), hclen + 4));
  }

  method BuildSized(hlit: nat, hclen: nat, total: nat, r: BitReader) returns (res: Result<(Huff, Huff)>)
    requires r.Valid() && hlit <= total <= 0xFFFF && hclen <= 19
    modifies r
    ensures BuildsTables(res, r, PairTables(hlit, CodeLengths(hclen, total, old(r.Rest()))))
  {
    var lens :- ReadCodeLengths(hclen, total, r);
    res := BuildPair(lens, hlit, r);
  }

  lemma DynamicAfterSizes(bits: seq<bool>, s: Sizes, rest: seq<bool>)
    requires TableSizes(bits) == Got(s, rest)
    ensures s.hclen <= 19 && DynamicTables(bits) == PairTables(s.hlit, CodeLengths(s.hclen, s.total, rest))
  {
  }

  method BuildDynamic(r: BitReader) returns (res: Result<(Huff, Huff)>)
    requires r.Valid()
    modifies r
    ensures BuildsTables(res, r, DynamicTables(old(r.Rest())))
  {
    ghost var bits := r.Rest();
    var s :- ReadSizes(r);
    DynamicAfterSizes(bits, s, r.Rest());
    res := BuildSized(s.hlit, s.hclen, s.total, r);
  }

  method DecodeBlock(btype: nat, r: BitReader, out: ByteVec) returns (res: Result<()>)
    requires r.Valid()
    modifies r, out
    ensures Agrees(res, r, out, Block(btype, old(r.Rest()), old(out.elems)))
  {
    match btype
    case 0 =>
      res := DecodeStored(r, out);
    case 1 =>
      FixedSpace(FixedLL());
      FixedDistSpace(FixedDist());
      var ll := Build(FixedLL());
      var dist := Build(FixedDist());
      res := DecodeHuffmanBlock(r, ll.value, dist.value, out, FixedLL(), FixedDist());
    case 2 =>
      ghost var spec := DynamicTables(r.Rest());
      var tables :- BuildDynamic(r);
      res := DecodeHuffmanBlock(r, tables.0, tables.1, out, spec.value.ll, spec.value.dist);
    case _ =>
      res := Err(InvalidData);
  }

  /** Inflate a raw stream, appending to `output`. */
  method InflateRaw(input: seq<byte>, output: ByteVec) returns (res: Result<()>)
    modifies output
    ensures var spec := Blocks(BytesToBits(input), old(output.elems));
      output.elems == spec.out && res == (if spec.Done? then Ok(()) else Err(spec.error))
  {
    var r := new BitReader(input);
    ghost var spec := Blocks(BytesToBits(input), output.elems);
    while true
      invariant r.Valid() && fresh(r) && Blocks(r.Rest(), output.elems) == spec
      decreases |r.Rest()|
    {
      var bfinal :- r.Read(1);
      var btype :- r.Read(2);
      var done :- DecodeBlock(btype, r, output);
      if |output.elems| > MAX_INFLATE_SIZE {
        return Err(MaxSizeExceeded);
      }
      if bfinal == 1 {
        return Ok(());
      }
    }
  }
}
