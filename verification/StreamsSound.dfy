/**
  The other direction of decoding: a stream that inflates was written by blocks of the format, and
  what came out is what they stand for.
 */
module StreamsSound {
  import opened Bits
  import opened BitStreams
  import opened Huffman
  import opened DeflateTables
  import opened Inflate
  import opened InflateProps
  import opened DeflateRoundTrip
  import opened DynamicHeaders
  import opened DynamicBlocks

  // ---- Items ----

  lemma SymbolIs(lens: seq<nat>, bits: seq<bool>, s: nat, after: seq<bool>, base: nat, width: nat, v: nat,
                 rest: seq<bool>) returns (more: nat)
    requires DecodeSym(lens, bits) == Got(s, after) && WithExtra(base, width, after) == Got(v, rest)
    ensures HasCode(lens, s) && more < Pow2(width) && v == base + more
    ensures bits == SymbolBits(lens, s, more, width) + rest
  {
    more := v - base;
    DecodeReadsCode(lens, bits);
    FieldIs(after, width);
    Assoc(CodeBits(lens, s), Lsb(more, width), rest);
  }

  lemma LengthIs(ll: seq<nat>, bits: seq<bool>, sym: nat, after: seq<bool>, len: nat, rest: seq<bool>)
    returns (code: nat, more: nat)
    requires DecodeSym(ll, bits) == Got(sym, after) && sym > 256 && LengthOf(sym, after) == Got(len, rest)
    ensures code < 29 && HasCode(ll, 257 + code) && more < Pow2(LengthWidth(code)) && len == LeastLength(code) + more
    ensures bits == SymbolBits(ll, 257 + code, more, LengthWidth(code)) + rest
  {
    code := sym - 257;
    LengthTable(code);
    more := SymbolIs(ll, bits, sym, after, LeastLength(code), LengthWidth(code), len, rest);
  }

  lemma DistanceCodeIs(dist: seq<nat>, bits: seq<bool>, d: nat, rest: seq<bool>) returns (code: nat, more: nat)
    requires DistanceOf(dist, bits) == Got(d, rest)
    ensures code < 30 && HasCode(dist, code) && more < Pow2(DistanceWidth(code)) && d == LeastDistance(code) + more
    ensures bits == SymbolBits(dist, code, more, DistanceWidth(code)) + rest
  {
    code := DecodeSym(dist, bits).value;
    DistanceTable(code);
    more := SymbolIs(dist, bits, code, DecodeSym(dist, bits).rest, LeastDistance(code), DistanceWidth(code), d, rest);
  }

  /** A match that is read was written by an item. */
  lemma MatchIs(t: Tables, bits: seq<bool>, sym: nat, after: seq<bool>, ref: Ref, rest: seq<bool>)
    returns (item: Item)
    requires DecodeSym(t.ll, bits) == Got(sym, after) && sym > 256 && BackRef(sym, t.dist, after) == Got(ref, rest)
    ensures item.Copy? && Writable(t, item) && LengthOfItem(item) == ref.len && DistanceOfItem(item) == ref.dist
    ensures bits == CodedItem(t, item) + rest
  {
    var r1 := LengthOf(sym, after).rest;
    var lc, le := LengthIs(t.ll, bits, sym, after, ref.len, r1);
    var dc, de := DistanceCodeIs(t.dist, r1, ref.dist, rest);
    item := Copy(lc, le, dc, de);
    Assoc(LengthCode(t, item), DistanceCode(t, item), rest);
  }

  /** How a block of codes goes on after its first symbol. */
  lemma NextOfBlock(t: Tables, bits: seq<bool>, out: seq<byte>, sym: nat, after: seq<bool>)
    returns (item: Item, next: seq<bool>)
    requires DecodeSym(t.ll, bits) == Got(sym, after) && sym != 256 && HuffBlock(t.ll, t.dist, bits, out).Done?
    ensures Writable(t, item) && Reaches(item, out) && bits == CodedItem(t, item) + next && |next| < |bits|
    ensures HuffBlock(t.ll, t.dist, bits, out) == HuffBlock(t.ll, t.dist, next, WithItem(item, out))
  {
    if sym < 256 {
      item, next := Byte(sym), after;
      DecodeReadsCode(t.ll, bits);
    } else {
      var ref := BackRef(sym, t.dist, after).value;
      next := BackRef(sym, t.dist, after).rest;
      item := MatchIs(t, bits, sym, after, ref, next);
      CopiesPeriodically(out, ref.dist, ref.len);
    }
  }

  /** A block of codes that is read was written by items and an end mark. */
  lemma {:induction false} ItemsOf(t: Tables, bits: seq<bool>, out: seq<byte>, end: seq<byte>, rest: seq<bool>)
    returns (ts: seq<Item>)
    requires HuffBlock(t.ll, t.dist, bits, out) == Done(end, rest)
    ensures HasCode(t.ll, 256) && AllWritable(t, ts) && AllReach(ts, out) && Output(ts, out) == end
    ensures bits == Codes(t, ts) + rest
    decreases |bits|
  {
    var sym, after := DecodeSym(t.ll, bits).value, DecodeSym(t.ll, bits).rest;
    if sym == 256 {
      ts := [];
      DecodeReadsCode(t.ll, bits);
      assert [] + CodeBits(t.ll, 256) == CodeBits(t.ll, 256);
    } else {
      var item, next := NextOfBlock(t, bits, out, sym, after);
      var more := ItemsOf(t, next, WithItem(item, out), end, rest);
      ts := [item] + more;
      assert ts[1..] == more;
      OneMoreItem(t, item, more, rest);
    }
  }

  lemma OneMoreItem(t: Tables, item: Item, more: seq<Item>, rest: seq<bool>)
    requires Writable(t, item) && AllWritable(t, more) && HasCode(t.ll, 256) && AllWritable(t, [item] + more)
    ensures CodedItem(t, item) + (Codes(t, more) + rest) == Codes(t, [item] + more) + rest
  {
    assert ([item] + more)[1..] == more;
    var a, b, c := CodedItem(t, item), CodedItems(t, more), CodeBits(t.ll, 256);
    Assoc(a, b + c, rest);
    Assoc(a, b, c);
  }

  // ---- Stored blocks ----

  lemma ByteIs(bits: seq<bool>, b: nat, rest: seq<bool>)
    requires Field(bits, 8) == Got(b, rest)
    ensures b < 256 && bits == Lsb(b, 8) + rest
  {
    assert Pow2(8) == 256;
    FieldIs(bits, 8);
  }

  /** A byte in front of others. */
  lemma ByteBefore(bits: seq<bool>, b: byte, r: seq<bool>, more: seq<byte>, rest: seq<bool>)
    requires bits == Lsb(b, 8) + r && r == BytesToBits(more) + rest
    ensures bits == BytesToBits([b] + more) + rest
  {
    assert ([b] + more)[1..] == more;
    Assoc(Lsb(b, 8), BytesToBits(more), rest);
  }

  lemma U16Is(bits: seq<bool>, v: nat, r: seq<bool>) returns (low: byte, high: byte, r1: seq<bool>)
    requires U16(bits) == Got(v, r)
    ensures v == 256 * high + low && bits == Lsb(low, 8) + r1 && r1 == Lsb(high, 8) + r
  {
    var lo := Field(bits, 8).value;
    r1 := Field(bits, 8).rest;
    ByteIs(bits, lo, r1);
    ByteIs(r1, Field(r1, 8).value, r);
    low, high := lo, Field(r1, 8).value;
  }

  lemma {:induction false} CopyIs(n: nat, bits: seq<bool>, out: seq<byte>, end: seq<byte>, rest: seq<bool>)
    returns (data: seq<byte>)
    requires StoredCopy(n, bits, out) == Done(end, rest)
    ensures |data| == n && end == out + data && bits == BytesToBits(data) + rest
  {
    if n == 0 {
      data := [];
      assert [] + bits == bits;
    } else {
      var b, r := Field(bits, 8).value, Field(bits, 8).rest;
      ByteIs(bits, b, r);
      var more := CopyIs(n - 1, r, out + [b], end, rest);
      data := [b] + more;
      ByteBefore(bits, b, r, more, rest);
      Assoc(out, [b], more);
    }
  }

  lemma Complement(low: nat, high: nat, low': nat, high': nat, n: nat)
    requires low < 256 && high < 256 && low' < 256 && high' < 256
    requires n == 256 * high + low && 256 * high' + low' == 0xFFFF - n
    ensures low == n % 256 && high == n / 256 && low' == 255 - low && high' == 255 - high
  {
  }

  /** The four bytes in front of the data. */
  lemma StoredBytesAre(data: seq<byte>, low: byte, high: byte, low': byte, high': byte, n: nat)
    requires n == |data| && n == 256 * high + low && 256 * high' + low' == 0xFFFF - n
    ensures StoredBytes(data) == [low] + ([high] + ([low'] + ([high'] + data)))
  {
    Complement(low, high, low', high', n);
  }

  lemma FourBytes(bits: seq<bool>, low: byte, a: seq<bool>, high: byte, r: seq<bool>, low': byte, b: seq<bool>,
                  high': byte, data: seq<byte>, rest: seq<bool>)
    requires bits == Lsb(low, 8) + a && a == Lsb(high, 8) + r
    requires r == Lsb(low', 8) + b && b == Lsb(high', 8) + (BytesToBits(data) + rest)
    ensures bits == BytesToBits([low] + ([high] + ([low'] + ([high'] + data)))) + rest
  {
    ByteBefore(b, high', BytesToBits(data) + rest, data, rest);
    ByteBefore(r, low', b, [high'] + data, rest);
    ByteBefore(a, high, r, [low'] + ([high'] + data), rest);
    ByteBefore(bits, low, a, [high] + ([low'] + ([high'] + data)), rest);
  }

  lemma LengthFieldsAre(bits: seq<bool>, n: nat, nlen: nat, r1: seq<bool>, data: seq<byte>, rest: seq<bool>)
    requires U16(bits) == Got(n, r1) && U16(r1) == Got(nlen, BytesToBits(data) + rest)
    requires nlen == 0xFFFF - n && |data| == n
    ensures bits == BytesToBits(StoredBytes(data)) + rest
  {
    var low, high, a := U16Is(bits, n, r1);
    var low', high', b := U16Is(r1, nlen, BytesToBits(data) + rest);
    FourBytes(bits, low, a, high, r1, low', b, high', data, rest);
    StoredBytesAre(data, low, high, low', high', n);
  }

  lemma AlignedRest(bits: seq<bool>, bytes: seq<byte>, rest: seq<bool>)
    requires Aligned(bits) && bits == BytesToBits(bytes) + rest
    ensures Aligned(rest)
  {
    WholeBytes(|bytes|, |BytesToBits(bytes)|);
  }

  lemma SkippedIsAligned(bits: seq<bool>)
    ensures Aligned(bits[|bits| % 8..]) && |bits| % 8 < 8
  {
  }

  /** A stored block that is read was written by padding and its bytes, and ends at a byte boundary. */
  lemma StoredIs(bits: seq<bool>, out: seq<byte>, end: seq<byte>, rest: seq<bool>)
    returns (junk: seq<bool>, data: seq<byte>)
    requires Stored(bits, out) == Done(end, rest)
    ensures |junk| < 8 && |data| <= 0xFFFF && end == out + data && Aligned(rest)
    ensures bits == junk + (BytesToBits(StoredBytes(data)) + rest)
  {
    SkippedIsAligned(bits);
    junk := bits[..|bits| % 8];
    var body := bits[|bits| % 8..];
    var n, r1 := U16(body).value, U16(body).rest;
    var nlen, r2 := U16(r1).value, U16(r1).rest;
    data := CopyIs(n, r2, out, end, rest);
    LengthFieldsAre(body, n, nlen, r1, data, rest);
    AlignedRest(body, StoredBytes(data), rest);
    assert bits == junk + body;
  }

  // ---- Blocks and streams ----

  /** What a block that was read was written as. */
  lemma BlockIs(btype: nat, bits: seq<bool>, out: seq<byte>, end: seq<byte>, rest: seq<bool>) returns (b: Written)
    requires Block(btype, bits, out) == Done(end, rest)
    ensures BlockOk(b, out) && TypeOf(b) == btype && After(b, out) == end && bits == Body(b, out) + rest
    ensures b.Plain? ==> Aligned(rest)
  {
    if btype == 0 {
      var junk, data := StoredIs(bits, out, end, rest);
      b := Plain(junk, data);
      Assoc(junk, BytesToBits(StoredBytes(data)), rest);
    } else if btype == 1 {
      var ts := ItemsOf(FixedTables(), bits, out, end, rest);
      b := Fixed(ts);
    } else {
      b := DynamicIs(bits, out, end, rest);
    }
  }

  lemma DynamicIs(bits: seq<bool>, out: seq<byte>, end: seq<byte>, rest: seq<bool>) returns (b: Written)
    requires Block(2, bits, out) == Done(end, rest)
    ensures BlockOk(b, out) && b.Dynamic? && After(b, out) == end && bits == Body(b, out) + rest
  {
    var t, body := DynamicTables(bits).value, DynamicTables(bits).rest;
    var h := HeaderSound(bits, t, body);
    var ts := ItemsOf(t, body, out, end, rest);
    b := Dynamic(h, ts);
    Assoc(HeaderBits(h), Codes(t, ts), rest);
  }

  lemma TypeIs(b: Written, bits: seq<bool>, rest: seq<bool>)
    requires Field(bits, 2) == Got(TypeOf(b), rest)
    ensures bits == TypeBits(b) + rest
  {
    assert Pow2(2) == 4;
    FieldIs(bits, 2);
    assert Lsb(TypeOf(b), 2) == TypeBits(b);
  }

  lemma FinalBit(bits: seq<bool>, v: nat, rest: seq<bool>)
    requires Field(bits, 1) == Got(v, rest)
    ensures bits == [v == 1] + rest
  {
    assert Pow2(1) == 2;
    FieldIs(bits, 1);
    assert Lsb(v, 1) == [v == 1];
  }

  /** The first block of a stream that inflates. */
  lemma FirstBlock(bits: seq<bool>, out: seq<byte>) returns (last: bool, b: Written, next: seq<bool>)
    requires Blocks(bits, out).Done?
    ensures BlockOk(b, out) && |After(b, out)| <= 1048576 && (b.Plain? ==> Aligned(next)) && |next| < |bits|
    ensures bits == [last] + (TypeBits(b) + (Body(b, out) + next))
    ensures Blocks(bits, out) == if last then Done(After(b, out), next) else Blocks(next, After(b, out))
  {
    var bfinal, r1 := Field(bits, 1).value, Field(bits, 1).rest;
    var btype, r2 := Field(r1, 2).value, Field(r1, 2).rest;
    var r := Block(btype, r2, out);
    next := r.rest;
    last := bfinal == 1;
    b := BlockIs(btype, r2, out, r.out, next);
    TypeIs(b, r1, r2);
    FinalBit(bits, bfinal, r1);
  }

  /** A stream that inflates was written by blocks, the last of them marked final. */
  lemma {:induction false} StreamIs(bits: seq<bool>, out: seq<byte>, end: seq<byte>, rest: seq<bool>)
    returns (s: Stream)
    requires Blocks(bits, out) == Done(end, rest)
    ensures StreamOk(s, out) && Text(s, out) == end && |end| <= 1048576
    ensures AllAligned(s, out, true, rest) && bits == StreamBits(s, out, true) + rest
    decreases |bits|
  {
    var last, b, next := FirstBlock(bits, out);
    if last {
      s := Final(b);
      assert [] + rest == rest;
    } else {
      var more := StreamIs(next, After(b, out), end, rest);
      s := Followed(b, more);
    }
    DynamicBlocks.Regroup([last], TypeBits(b), Body(b, out), Behind(s, out, true), rest);
  }

  /** The bits of `s`, and how its stored blocks lie, with `rest` behind it. */
  ghost predicate WrittenAs(bits: seq<bool>, s: Stream, d: seq<byte>, rest: seq<bool>)
  {
    && StreamOk(s, []) && AllAligned(s, [], true, rest) && Text(s, []) == d
    && bits == StreamBits(s, [], true) + rest
  }

  /**
    Inflating gives exactly the texts of at most 1 MiB that the stream's blocks stand for:
    nothing the format allows is refused, and nothing else is taken.
   */
  lemma InflatesExactly(bits: seq<bool>, d: seq<byte>, rest: seq<bool>)
    ensures Blocks(bits, []) == Done(d, rest) <==> |d| <= 1048576 && exists s :: WrittenAs(bits, s, d, rest)
  {
    if Blocks(bits, []) == Done(d, rest) {
      var s := StreamIs(bits, [], d, rest);
      assert WrittenAs(bits, s, d, rest);
    }
    if s :| WrittenAs(bits, s, d, rest) {
      if |d| <= 1048576 { AnyStreamDecodes(s, [], true, rest); }
    }
  }
}
