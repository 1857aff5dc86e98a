/** Properties of every run of the decoder: bounded output, and no look past the end. */
module InflateProps {
  import opened Bits
  import opened BitStreams
  import opened Huffman
  import opened DeflateTables
  import opened Inflate

  // ---- Output only grows, and never past the limit ----

  ghost predicate Grown(out: seq<byte>, r: Step)
  {
    out <= r.out && (|out| <= MAX_INFLATE_SIZE ==> |r.out| <= MAX_INFLATE_SIZE)
  }

  lemma {:induction false} HuffBlockGrows(ll: seq<nat>, dist: seq<nat>, bits: seq<bool>, out: seq<byte>)
    ensures Grown(out, HuffBlock(ll, dist, bits, out))
    decreases |bits|
  {
    var d := DecodeSym(ll, bits);
    if d.Got? {
      var Got(sym, r1) := d;
      if sym < 256 {
        if Room(out) != 0 { HuffBlockGrows(ll, dist, r1, out + [sym]); }
      } else if sym > 256 {
        var b := BackRef(sym, dist, r1);
        if b.Got? && b.value.dist <= |out| && b.value.len <= Room(out) {
          HuffBlockGrows(ll, dist, b.rest, out + Periodic(out, b.value.dist, b.value.len));
        }
      }
    }
  }

  lemma {:induction false} StoredCopyGrows(n: nat, bits: seq<bool>, out: seq<byte>)
    ensures Grown(out, StoredCopy(n, bits, out))
  {
    if n != 0 && Room(out) != 0 && Field(bits, 8).Got? {
      var Got(b, rest) := Field(bits, 8);
      StoredCopyGrows(n - 1, rest, out + [b]);
    }
  }

  lemma BlockGrows(btype: nat, bits: seq<bool>, out: seq<byte>)
    ensures Grown(out, Block(btype, bits, out))
  {
    if btype == 0 {
      var h := StoredHeader(bits);
      if h.Got? { StoredCopyGrows(h.value, h.rest, out); }
    } else if btype == 1 {
      HuffBlockGrows(FixedLL(), FixedDist(), bits, out);
    } else if btype == 2 {
      var t := DynamicTables(bits);
      if t.Got? { HuffBlockGrows(t.value.ll, t.value.dist, t.rest, out); }
    }
  }

  /** On every input, success or error, the output extends what was there within the limit. */
  lemma {:induction false} BlocksGrow(bits: seq<bool>, out: seq<byte>)
    ensures Grown(out, Blocks(bits, out))
    decreases |bits|
  {
    if Field(bits, 1).Got? {
      var Got(bfinal, r1) := Field(bits, 1);
      if Field(r1, 2).Got? {
        var Got(btype, r2) := Field(r1, 2);
        BlockGrows(btype, r2, out);
        var b := Block(btype, r2, out);
        if b.Done? && |b.out| <= MAX_INFLATE_SIZE && bfinal != 1 { BlocksGrow(b.rest, b.out); }
      }
    }
  }

  // ---- What follows the final block is never looked at ----

  /** The same outcome with `more` following. */
  function Then<T>(r: Parse<T>, more: seq<bool>): Parse<T>
    requires r.Got?
  {
    Got(r.value, r.rest + more)
  }

  lemma FieldExtend(bits: seq<bool>, n: nat, more: seq<bool>)
    requires Field(bits, n).Got?
    ensures Field(bits + more, n) == Then(Field(bits, n), more)
  {
    assert (bits + more)[..n] == bits[..n] && (bits + more)[n..] == bits[n..] + more;
  }

  lemma ExtraExtend(base: nat, xtra: nat, bits: seq<bool>, more: seq<bool>)
    requires WithExtra(base, xtra, bits).Got?
    ensures WithExtra(base, xtra, bits + more) == Then(WithExtra(base, xtra, bits), more)
  {
    FieldExtend(bits, xtra, more);
  }

  lemma LengthExtend(sym: nat, bits: seq<bool>, more: seq<bool>)
    requires sym > 256 && LengthOf(sym, bits).Got?
    ensures LengthOf(sym, bits + more) == Then(LengthOf(sym, bits), more)
  {
    ExtraExtend(LEN_BASE[sym - 257], LEN_XTRA[sym - 257], bits, more);
  }

  lemma DistanceExtend(dist: seq<nat>, bits: seq<bool>, more: seq<bool>)
    requires Fits(dist) && DistanceOf(dist, bits).Got?
    ensures DistanceOf(dist, bits + more) == Then(DistanceOf(dist, bits), more)
  {
    DecodeExtend(dist, bits, more);
    var Got(dsym, rest) := DecodeSym(dist, bits);
    ExtraExtend(DIST_BASE[dsym], DIST_XTRA[dsym], rest, more);
  }

  lemma BackRefExtend(sym: nat, dist: seq<nat>, bits: seq<bool>, more: seq<bool>)
    requires sym > 256 && Fits(dist) && BackRef(sym, dist, bits).Got?
    ensures BackRef(sym, dist, bits + more) == Then(BackRef(sym, dist, bits), more)
  {
    LengthExtend(sym, bits, more);
    DistanceExtend(dist, LengthOf(sym, bits).rest, more);
  }

  /** The same result with `more` still to be read. */
  function Leaving(r: Step, more: seq<bool>): Step
    requires r.Done?
  {
    Done(r.out, r.rest + more)
  }

  lemma {:induction false} HuffBlockExtend(ll: seq<nat>, dist: seq<nat>, bits: seq<bool>, out: seq<byte>,
                                           more: seq<bool>)
    requires Fits(ll) && Fits(dist) && HuffBlock(ll, dist, bits, out).Done?
    ensures HuffBlock(ll, dist, bits + more, out) == Leaving(HuffBlock(ll, dist, bits, out), more)
    decreases |bits|
  {
    DecodeExtend(ll, bits, more);
    var Got(sym, r1) := DecodeSym(ll, bits);
    if sym < 256 {
      HuffBlockExtend(ll, dist, r1, out + [sym], more);
    } else if sym > 256 {
      BackRefExtend(sym, dist, r1, more);
      var Got(ref, r2) := BackRef(sym, dist, r1);
      HuffBlockExtend(ll, dist, r2, out + Periodic(out, ref.dist, ref.len), more);
    }
  }

  lemma {:induction false} StoredCopyExtend(n: nat, bits: seq<bool>, out: seq<byte>, more: seq<bool>)
    requires StoredCopy(n, bits, out).Done?
    ensures StoredCopy(n, bits + more, out) == Leaving(StoredCopy(n, bits, out), more)
  {
    if n != 0 {
      FieldExtend(bits, 8, more);
      var Got(b, rest) := Field(bits, 8);
      StoredCopyExtend(n - 1, rest, out + [b], more);
    }
  }

  lemma U16Extend(bits: seq<bool>, more: seq<bool>)
    requires U16(bits).Got?
    ensures U16(bits + more) == Then(U16(bits), more)
  {
    FieldExtend(bits, 8, more);
    FieldExtend(Field(bits, 8).rest, 8, more);
  }

  lemma SameAlignment(n: nat, m: nat)
    requires m % 8 == 0
    ensures (n + m) % 8 == n % 8
  {
  }

  lemma StoredHeaderExtend(bits: seq<bool>, more: seq<bool>)
    requires |more| % 8 == 0 && StoredHeader(bits).Got?
    ensures StoredHeader(bits + more) == Then(StoredHeader(bits), more)
  {
    var aligned := bits[|bits| % 8..];
    SameAlignment(|bits|, |more|);
    assert (bits + more)[|bits + more| % 8..] == aligned + more;
    U16Extend(aligned, more);
    U16Extend(U16(aligned).rest, more);
  }

  lemma {:induction false} ReadClExtend(n: nat, bits: seq<bool>, lens: seq<nat>, more: seq<bool>)
    requires n <= 19 && |lens| == 19 && (forall j :: 0 <= j < 19 ==> lens[j] < 8) && ReadClLens(n, bits, lens).Got?
    ensures ReadClLens(n, bits + more, lens) == Then(ReadClLens(n, bits, lens), more)
  {
    if n != 0 {
      ReadClExtend(n - 1, bits, lens, more);
      FieldExtend(ReadClLens(n - 1, bits, lens).rest, 3, more);
    }
  }

  lemma RunExtend(sym: nat, bits: seq<bool>, acc: seq<nat>, more: seq<bool>)
    requires Run(sym, bits, acc).Got?
    ensures Run(sym, bits + more, acc) == Then(Run(sym, bits, acc), more)
  {
    if sym == 16 { FieldExtend(bits, 2, more); }
    if sym == 17 { FieldExtend(bits, 3, more); }
    if sym == 18 { FieldExtend(bits, 7, more); }
  }

  lemma {:induction false} RunLengthsExtend(cl: seq<nat>, bits: seq<bool>, acc: seq<nat>, total: nat, more: seq<bool>)
    requires Fits(cl) && |acc| <= total && ValidLens(acc) && RunLengths(cl, bits, acc, total).Got?
    ensures RunLengths(cl, bits + more, acc, total) == Then(RunLengths(cl, bits, acc, total), more)
    decreases total - |acc|
  {
    if |acc| < total {
      DecodeExtend(cl, bits, more);
      var Got(sym, r1) := DecodeSym(cl, bits);
      RunExtend(sym, r1, acc, more);
      var Got(run, r2) := Run(sym, r1, acc);
      RunLengthsExtend(cl, r2, acc + run, total, more);
    }
  }

  lemma TwoFieldsExtend(bits: seq<bool>, m: nat, n: nat, more: seq<bool>)
    requires TwoFields(bits, m, n).Got?
    ensures TwoFields(bits + more, m, n) == Then(TwoFields(bits, m, n), more)
  {
    FieldExtend(bits, m, more);
    FieldExtend(Field(bits, m).rest, n, more);
  }

  lemma TableSizesExtend(bits: seq<bool>, more: seq<bool>)
    requires TableSizes(bits).Got?
    ensures TableSizes(bits + more) == Then(TableSizes(bits), more)
  {
    TwoFieldsExtend(bits, 5, 5, more);
    FieldExtend(TwoFields(bits, 5, 5).rest, 4, more);
  }

  lemma CodeLengthsExtend(hclen: nat, total: nat, bits: seq<bool>, more: seq<bool>)
    requires hclen <= 19 && CodeLengths(hclen, total, bits).Got?
    ensures CodeLengths(hclen, total, bits + more) == Then(CodeLengths(hclen, total, bits), more)
  {
    ReadClExtend(hclen, bits, seq(19, _ => 0), more);
    var Got(cl, rest) := ReadClLens(hclen, bits, seq(19, _ => 0));
    RunLengthsExtend(cl, rest, [], total, more);
  }

  lemma PairOfCode(hlit: nat, code: Parse<seq<nat>>, longer: Parse<seq<nat>>, more: seq<bool>)
    requires code.Got? ==> hlit <= |code.value|
    requires PairTables(hlit, code).Got? && longer == Then(code, more)
    ensures longer.Got? && hlit <= |longer.value|
    ensures PairTables(hlit, longer) == Then(PairTables(hlit, code), more)
  {
  }

  lemma PairTablesExtend(hlit: nat, hclen: nat, total: nat, bits: seq<bool>, more: seq<bool>)
    requires hclen <= 19 && hlit <= total && PairTables(hlit, CodeLengths(hclen, total, bits)).Got?
    ensures PairTables(hlit, CodeLengths(hclen, total, bits + more)) ==
            Then(PairTables(hlit, CodeLengths(hclen, total, bits)), more)
  {
    CodeLengthsExtend(hclen, total, bits, more);
    PairOfCode(hlit, CodeLengths(hclen, total, bits), CodeLengths(hclen, total, bits + more), more);
  }

  lemma DynamicExtend(bits: seq<bool>, more: seq<bool>)
    requires DynamicTables(bits).Got?
    ensures DynamicTables(bits + more) == Then(DynamicTables(bits), more)
  {
    TableSizesExtend(bits, more);
    var Got(s, rest) := TableSizes(bits);
    DynamicAfterSizes(bits, s, rest);
    DynamicAfterSizes(bits + more, s, rest + more);
    PairTablesExtend(s.hlit, s.hclen, s.total, rest, more);
  }

  lemma BlockExtend(btype: nat, bits: seq<bool>, out: seq<byte>, more: seq<bool>)
    requires Block(btype, bits, out).Done? && |more| % 8 == 0
    ensures Block(btype, bits + more, out) == Leaving(Block(btype, bits, out), more)
  {
    if btype == 0 {
      StoredHeaderExtend(bits, more);
      StoredCopyExtend(StoredHeader(bits).value, StoredHeader(bits).rest, out, more);
    } else if btype == 1 {
      FixedSpace(FixedLL());
      FixedDistSpace(FixedDist());
      HuffBlockExtend(FixedLL(), FixedDist(), bits, out, more);
    } else {
      DynamicExtend(bits, more);
      var Got(t, rest) := DynamicTables(bits);
      HuffBlockExtend(t.ll, t.dist, rest, out, more);
    }
  }

  lemma {:induction false} BlocksExtend(bits: seq<bool>, out: seq<byte>, more: seq<bool>)
    requires Blocks(bits, out).Done? && |more| % 8 == 0
    ensures Blocks(bits + more, out) == Leaving(Blocks(bits, out), more)
    decreases |bits|
  {
    FieldExtend(bits, 1, more);
    var Got(bfinal, r1) := Field(bits, 1);
    FieldExtend(r1, 2, more);
    var Got(btype, r2) := Field(r1, 2);
    BlockExtend(btype, r2, out, more);
    var b := Block(btype, r2, out);
    if bfinal != 1 { BlocksExtend(b.rest, b.out, more); }
  }

  /** Bytes after a stream that inflates are harmless: only what is left over changes. */
  lemma TrailerHarmless(stream: seq<byte>, trailer: seq<byte>, out: seq<byte>, result: Step)
    requires result == Blocks(BytesToBits(stream), out) && result.Done?
    ensures Blocks(BytesToBits(stream + trailer), out) == Leaving(result, BytesToBits(trailer))
  {
    BytesToBitsAppend(stream, trailer);
    WholeBytes(|trailer|, |BytesToBits(trailer)|);
    ExtendTo(BytesToBits(stream), BytesToBits(trailer), BytesToBits(stream + trailer), out, result);
  }

  lemma WholeBytes(n: nat, m: nat)
    requires m == 8 * n
    ensures m % 8 == 0
  {
  }

  lemma ExtendTo(bits: seq<bool>, more: seq<bool>, both: seq<bool>, out: seq<byte>, result: Step)
    requires both == bits + more && |more| % 8 == 0 && result == Blocks(bits, out) && result.Done?
    ensures Blocks(both, out) == Leaving(result, more)
  {
    BlocksExtend(bits, out, more);
  }
}
