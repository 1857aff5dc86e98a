/**
  Blocks as any encoder may write them: a dynamic header and the codes of its tables, or stored
  bytes, one block behind another, read back as the bytes they stand for.
 */
module DynamicBlocks {
  import opened Bits
  import opened BitStreams
  import opened Huffman
  import opened DeflateTables
  import opened Inflate
  import opened InflateProps
  import opened DeflateRoundTrip
  import opened DynamicHeaders

  // ---- What the items of a block stand for ----

  /** A byte, or a match as it is written: two code numbers, each with the amount over its least value. */
  datatype Item = Byte(b: byte) | Copy(lenCode: nat, lenMore: nat, distCode: nat, distMore: nat)

  /** The number of extra bits of a length code: one more every four codes. */
  function LengthWidth(i: nat): nat
  {
    if i < 8 || i == 28 then 0 else (i - 4) / 4
  }

  /** The least length of a length code, except that the last stands for 258 alone. */
  function LeastLength(i: nat): nat
  {
    if i < 8 then 3 + i else if i == 28 then 258 else 3 + (4 + i % 4) * Pow2((i - 4) / 4)
  }

  /** The number of extra bits of a distance code: one more every two codes. */
  function DistanceWidth(i: nat): nat
  {
    if i < 4 then 0 else (i - 2) / 2
  }

  function LeastDistance(i: nat): nat
  {
    if i < 4 then 1 + i else 1 + (2 + i % 2) * Pow2((i - 2) / 2)
  }

  predicate ItemOk(t: Item)
  {
    t.Copy? ==>
      t.lenCode < 29 && t.lenMore < Pow2(LengthWidth(t.lenCode)) &&
      t.distCode < 30 && t.distMore < Pow2(DistanceWidth(t.distCode))
  }

  function LengthOfItem(t: Item): nat
    requires t.Copy?
  {
    LeastLength(t.lenCode) + t.lenMore
  }

  function DistanceOfItem(t: Item): nat
    requires t.Copy?
  {
    LeastDistance(t.distCode) + t.distMore
  }

  /** A match copies byte after byte from `dist` back, bytes it has just written included. */
  function Copied(out: seq<byte>, dist: nat, len: nat): (r: seq<byte>)
    requires 1 <= dist <= |out|
    ensures |r| == |out| + len
    decreases len
  {
    if len == 0 then out else Copied(out + [out[|out| - dist]], dist, len - 1)
  }

  function WithItem(t: Item, out: seq<byte>): seq<byte>
    requires Reaches(t, out)
  {
    if t.Byte? then out + [t.b] else Copied(out, DistanceOfItem(t), LengthOfItem(t))
  }

  /** A match reaches back to a byte that is there. */
  predicate Reaches(t: Item, out: seq<byte>)
  {
    t.Copy? ==> 1 <= DistanceOfItem(t) <= |out|
  }

  predicate AllReach(ts: seq<Item>, out: seq<byte>)
  {
    ts == [] || (Reaches(ts[0], out) && AllReach(ts[1..], WithItem(ts[0], out)))
  }

  function Output(ts: seq<Item>, out: seq<byte>): seq<byte>
    requires AllReach(ts, out)
  {
    if ts == [] then out else Output(ts[1..], WithItem(ts[0], out))
  }

  lemma {:induction false} OutputGrows(ts: seq<Item>, out: seq<byte>)
    requires AllReach(ts, out)
    ensures |out| <= |Output(ts, out)|
  {
    if ts != [] { OutputGrows(ts[1..], WithItem(ts[0], out)); }
  }

  /** Copying byte by byte continues the output with the period `dist`. */
  lemma {:induction false} CopiedIsPeriodic(out: seq<byte>, dist: nat, done: nat, len: nat)
    requires 1 <= dist <= |out|
    ensures Copied(out + Periodic(out, dist, done), dist, len) == out + Periodic(out, dist, done + len)
    decreases len
  {
    if len > 0 {
      PeriodicStep(out, dist, done);
      CopiedIsPeriodic(out, dist, done + 1, len - 1);
    }
  }

  lemma CopiesPeriodically(out: seq<byte>, dist: nat, len: nat)
    requires 1 <= dist <= |out|
    ensures Copied(out, dist, len) == out + Periodic(out, dist, len)
  {
    assert out + Periodic(out, dist, 0) == out;
    CopiedIsPeriodic(out, dist, 0, len);
  }

  // ---- The tables of lengths and distances ----

  lemma SmallPowers()
    ensures Pow2(1) == 2 && Pow2(2) == 4 && Pow2(3) == 8 && Pow2(4) == 16 && Pow2(5) == 32 && Pow2(6) == 64
    ensures Pow2(7) == 128 && Pow2(8) == 256 && Pow2(9) == 512 && Pow2(10) == 1024 && Pow2(11) == 2048
    ensures Pow2(12) == 4096 && Pow2(13) == 8192
  {
  }

  /** The table of lengths is the one the rule gives. */
  lemma LengthTable(i: nat)
    requires i < 29
    ensures LEN_BASE[i] == LeastLength(i) && LEN_XTRA[i] == LengthWidth(i)
  {
    SmallPowers();
    if i < 16 { ShortLengths(i); }
  }

  lemma ShortLengths(i: nat)
    requires i < 16
    ensures LEN_BASE[i] == LeastLength(i) && LEN_XTRA[i] == LengthWidth(i)
  {
    SmallPowers();
  }

  /** The table of distances is the one the rule gives. */
  lemma DistanceTable(i: nat)
    requires i < 30
    ensures DIST_BASE[i] == LeastDistance(i) && DIST_XTRA[i] == DistanceWidth(i)
  {
    if i < 10 { ShortDistances(i); } else if i < 20 { MiddleDistances(i); } else { LongDistances(i); }
  }

  lemma ShortDistances(i: nat)
    requires i < 10
    ensures DIST_BASE[i] == LeastDistance(i) && DIST_XTRA[i] == DistanceWidth(i)
  {
    SmallPowers();
  }

  lemma MiddleDistances(i: nat)
    requires 10 <= i < 20
    ensures DIST_BASE[i] == LeastDistance(i) && DIST_XTRA[i] == DistanceWidth(i)
  {
    SmallPowers();
  }

  lemma LongDistances(i: nat)
    requires 20 <= i < 30
    ensures DIST_BASE[i] == LeastDistance(i) && DIST_XTRA[i] == DistanceWidth(i)
  {
    SmallPowers();
  }

  // ---- The codes of items in any pair of tables ----

  predicate HasCode(lens: seq<nat>, s: nat)
  {
    s < |lens| && lens[s] > 0
  }

  /** A symbol in its code, then the amount over its least value. */
  function SymbolBits(lens: seq<nat>, s: nat, more: nat, width: nat): seq<bool>
    requires HasCode(lens, s)
  {
    CodeBits(lens, s) + Lsb(more, width)
  }

  /** The tables have codes for what the item needs. */
  predicate Writable(t: Tables, item: Item)
  {
    && ItemOk(item)
    && match item
       case Byte(b) => HasCode(t.ll, b)
       case Copy(lc, _, dc, _) => HasCode(t.ll, 257 + lc) && HasCode(t.dist, dc)
  }

  function LengthCode(t: Tables, item: Item): seq<bool>
    requires item.Copy? && Writable(t, item)
  {
    SymbolBits(t.ll, 257 + item.lenCode, item.lenMore, LengthWidth(item.lenCode))
  }

  function DistanceCode(t: Tables, item: Item): seq<bool>
    requires item.Copy? && Writable(t, item)
  {
    SymbolBits(t.dist, item.distCode, item.distMore, DistanceWidth(item.distCode))
  }

  function CodedItem(t: Tables, item: Item): seq<bool>
    requires Writable(t, item)
  {
    if item.Byte? then CodeBits(t.ll, item.b) else LengthCode(t, item) + DistanceCode(t, item)
  }

  predicate AllWritable(t: Tables, ts: seq<Item>)
  {
    ts == [] || (Writable(t, ts[0]) && AllWritable(t, ts[1..]))
  }

  function CodedItems(t: Tables, ts: seq<Item>): seq<bool>
    requires AllWritable(t, ts)
  {
    if ts == [] then [] else CodedItem(t, ts[0]) + CodedItems(t, ts[1..])
  }

  lemma SymbolReads(lens: seq<nat>, s: nat, more: nat, base: nat, width: nat, v: nat, rest: seq<bool>)
    returns (after: seq<bool>)
    requires Fits(lens) && HasCode(lens, s) && more < Pow2(width) && v == base + more
    ensures DecodeSym(lens, SymbolBits(lens, s, more, width) + rest) == Got(s, after)
    ensures WithExtra(base, width, after) == Got(v, rest)
  {
    after := Lsb(more, width) + rest;
    DecodeCode(lens, s, after);
    Assoc(CodeBits(lens, s), Lsb(more, width), rest);
    FieldOf(more, width, rest);
  }

  lemma DistanceIs(dist: seq<nat>, bits: seq<bool>, i: nat, after: seq<bool>, base: nat, width: nat, v: nat,
                   rest: seq<bool>)
    requires DecodeSym(dist, bits) == Got(i, after) && i < 30 && base == DIST_BASE[i] && width == DIST_XTRA[i]
    requires WithExtra(base, width, after) == Got(v, rest)
    ensures DistanceOf(dist, bits) == Got(v, rest)
  {
  }

  lemma DistanceReads(t: Tables, item: Item, rest: seq<bool>)
    requires item.Copy? && Writable(t, item) && Fits(t.dist)
    ensures DistanceOf(t.dist, DistanceCode(t, item) + rest) == Got(DistanceOfItem(item), rest)
  {
    DistanceTable(item.distCode);
    var i, base, width := item.distCode, LeastDistance(item.distCode), DistanceWidth(item.distCode);
    var after := SymbolReads(t.dist, i, item.distMore, base, width, DistanceOfItem(item), rest);
    DistanceIs(t.dist, DistanceCode(t, item) + rest, i, after, base, width, DistanceOfItem(item), rest);
  }

  lemma LengthReads(t: Tables, item: Item, rest: seq<bool>) returns (after: seq<bool>)
    requires item.Copy? && Writable(t, item) && Fits(t.ll)
    ensures DecodeSym(t.ll, LengthCode(t, item) + rest) == Got(257 + item.lenCode, after)
    ensures LengthOf(257 + item.lenCode, after) == Got(LengthOfItem(item), rest)
  {
    LengthTable(item.lenCode);
    var i := item.lenCode;
    after := SymbolReads(t.ll, 257 + i, item.lenMore, LeastLength(i), LengthWidth(i), LengthOfItem(item), rest);
  }

  lemma BothRead(sym: nat, dist: seq<nat>, bits: seq<bool>, ref: Ref, r1: seq<bool>, rest: seq<bool>)
    requires sym > 256 && LengthOf(sym, bits) == Got(ref.len, r1) && DistanceOf(dist, r1) == Got(ref.dist, rest)
    ensures BackRef(sym, dist, bits) == Got(ref, rest)
  {
  }

  /** A match ahead: its symbol is decoded, then its length and distance are. */
  lemma MatchStep(ll: seq<nat>, dist: seq<nat>, bits: seq<bool>, sym: nat, after: seq<bool>, ref: Ref,
                  rest: seq<bool>, out: seq<byte>)
    requires DecodeSym(ll, bits) == Got(sym, after) && sym > 256 && BackRef(sym, dist, after) == Got(ref, rest)
    requires ref.dist <= |out| && |out| + ref.len <= MAX_INFLATE_SIZE
    ensures HuffBlock(ll, dist, bits, out) == HuffBlock(ll, dist, rest, out + Periodic(out, ref.dist, ref.len))
  {
  }

  lemma CopyReads(t: Tables, item: Item, rest: seq<bool>, out: seq<byte>)
    requires Fits(t.ll) && Fits(t.dist) && item.Copy? && Writable(t, item) && Reaches(item, out)
    requires |out| + LengthOfItem(item) <= MAX_INFLATE_SIZE
    ensures HuffBlock(t.ll, t.dist, CodedItem(t, item) + rest, out) ==
            HuffBlock(t.ll, t.dist, rest, out + Periodic(out, DistanceOfItem(item), LengthOfItem(item)))
  {
    var sym, tail := 257 + item.lenCode, DistanceCode(t, item) + rest;
    var ref := Ref(LengthOfItem(item), DistanceOfItem(item));
    DistanceReads(t, item, rest);
    var after := LengthReads(t, item, tail);
    BothRead(sym, t.dist, after, ref, tail, rest);
    Assoc(LengthCode(t, item), DistanceCode(t, item), rest);
    MatchStep(t.ll, t.dist, LengthCode(t, item) + tail, sym, after, ref, rest, out);
  }

  lemma ItemReads(t: Tables, item: Item, rest: seq<bool>, out: seq<byte>)
    requires Fits(t.ll) && Fits(t.dist) && Writable(t, item) && Reaches(item, out)
    requires |WithItem(item, out)| <= MAX_INFLATE_SIZE
    ensures HuffBlock(t.ll, t.dist, CodedItem(t, item) + rest, out) ==
            HuffBlock(t.ll, t.dist, rest, WithItem(item, out))
  {
    match item
    case Byte(b) => DecodeCode(t.ll, b, rest);
    case Copy(_, _, _, _) =>
      CopiesPeriodically(out, DistanceOfItem(item), LengthOfItem(item));
      CopyReads(t, item, rest, out);
  }

  /** The items of a block, in the codes of any two tables, are read back as what they stand for. */
  lemma {:induction false} ItemsRead(t: Tables, ts: seq<Item>, rest: seq<bool>, out: seq<byte>)
    requires Fits(t.ll) && Fits(t.dist) && HasCode(t.ll, 256) && AllWritable(t, ts) && AllReach(ts, out)
    requires |Output(ts, out)| <= MAX_INFLATE_SIZE
    ensures HuffBlock(t.ll, t.dist, CodedItems(t, ts) + (CodeBits(t.ll, 256) + rest), out) ==
            Done(Output(ts, out), rest)
    decreases |ts|
  {
    var tail := CodeBits(t.ll, 256) + rest;
    if ts == [] {
      assert [] + tail == tail;
      DecodeCode(t.ll, 256, rest);
    } else {
      var more := CodedItems(t, ts[1..]);
      OutputGrows(ts[1..], WithItem(ts[0], out));
      Assoc(CodedItem(t, ts[0]), more, tail);
      ItemReads(t, ts[0], more + tail, out);
      ItemsRead(t, ts[1..], rest, WithItem(ts[0], out));
    }
  }

  // ---- Stored bytes ----

  /** LEN, its complement and the bytes; the least significant byte of a number comes first. */
  function StoredBytes(data: seq<byte>): seq<byte>
    requires |data| <= 0xFFFF
  {
    var low, high := |data| % 256, |data| / 256;
    [low, high, 255 - low, 255 - high] + data
  }

  lemma ByteRead(b: byte, more: seq<byte>, rest: seq<bool>)
    ensures Field(BytesToBits([b] + more) + rest, 8) == Got(b, BytesToBits(more) + rest)
  {
    assert ([b] + more)[1..] == more;
    assert Pow2(8) == 256;
    Assoc(Lsb(b, 8), BytesToBits(more), rest);
    FieldOf(b, 8, BytesToBits(more) + rest);
  }

  lemma U16Read(low: byte, high: byte, v: nat, more: seq<byte>, rest: seq<bool>)
    requires v == 256 * high + low
    ensures U16(BytesToBits([low] + ([high] + more)) + rest) == Got(v, BytesToBits(more) + rest)
  {
    ByteRead(low, [high] + more, rest);
    ByteRead(high, more, rest);
  }

  lemma {:induction false} BytesCopied(data: seq<byte>, rest: seq<bool>, out: seq<byte>)
    requires |out| + |data| <= MAX_INFLATE_SIZE
    ensures StoredCopy(|data|, BytesToBits(data) + rest, out) == Done(out + data, rest)
  {
    if data == [] {
      assert [] + rest == rest && out + [] == out;
    } else {
      assert data == [data[0]] + data[1..];
      ByteRead(data[0], data[1..], rest);
      BytesCopied(data[1..], rest, out + [data[0]]);
      Assoc(out, [data[0]], data[1..]);
    }
  }

  /** The bytes of a stored block, four for its length and then its data. */
  lemma StoredSplit(data: seq<byte>) returns (low: byte, high: byte)
    requires |data| <= 0xFFFF
    ensures 256 * high + low == |data|
    ensures StoredBytes(data) == [low] + ([high] + ([255 - low] + ([255 - high] + data)))
  {
    low, high := |data| % 256, |data| / 256;
  }

  lemma WholeBytesAnd(bytes: nat, n: nat, m: nat)
    requires n == 8 * bytes + m && m % 8 == 0
    ensures n % 8 == 0
  {
  }

  lemma Remainder(j: nat, m: nat)
    requires j < 8 && m % 8 == 0
    ensures (j + m) % 8 == j
  {
  }

  lemma JunkSkipped(junk: seq<bool>, aligned: seq<bool>)
    requires |junk| < 8 && |aligned| % 8 == 0
    ensures (junk + aligned)[|junk + aligned| % 8..] == aligned
  {
    Remainder(|junk|, |aligned|);
  }

  lemma HeaderRead(junk: seq<bool>, bits: seq<bool>, len: nat, nlen: nat, r1: seq<bool>, r2: seq<bool>)
    requires |junk| < 8 && |bits| % 8 == 0 && nlen == 0xFFFF - len
    requires U16(bits) == Got(len, r1) && U16(r1) == Got(nlen, r2)
    ensures StoredHeader(junk + bits) == Got(len, r2)
  {
    JunkSkipped(junk, bits);
  }

  lemma LengthRead(data: seq<byte>, rest: seq<bool>) returns (nlen: nat, r1: seq<bool>)
    requires |data| <= 0xFFFF
    ensures nlen == 0xFFFF - |data| && U16(BytesToBits(StoredBytes(data)) + rest) == Got(|data|, r1)
    ensures U16(r1) == Got(nlen, BytesToBits(data) + rest)
  {
    var low, high := StoredSplit(data);
    nlen := 0xFFFF - |data|;
    r1 := BytesToBits([255 - low] + ([255 - high] + data)) + rest;
    U16Read(low, high, |data|, [255 - low] + ([255 - high] + data), rest);
    U16Read(255 - low, 255 - high, nlen, data, rest);
  }

  /** A stored block is read behind any padding to the byte boundary. */
  lemma StoredReads(junk: seq<bool>, data: seq<byte>, rest: seq<bool>, out: seq<byte>)
    requires |junk| < 8 && |data| <= 0xFFFF && |rest| % 8 == 0 && |out| + |data| <= MAX_INFLATE_SIZE
    ensures Stored(junk + (BytesToBits(StoredBytes(data)) + rest), out) == Done(out + data, rest)
  {
    var bits := BytesToBits(StoredBytes(data)) + rest;
    WholeBytesAnd(|StoredBytes(data)|, |bits|, |rest|);
    var nlen, r1 := LengthRead(data, rest);
    HeaderRead(junk, bits, |data|, nlen, r1, BytesToBits(data) + rest);
    BytesCopied(data, rest, out);
  }

  // ---- Blocks and streams ----

  /** A block as an encoder may write it. */
  datatype Written =
    | Plain(junk: seq<bool>, data: seq<byte>)
    | Fixed(items: seq<Item>)
    | Dynamic(header: Header, items: seq<Item>)

  ghost predicate BlockOk(b: Written, out: seq<byte>)
  {
    match b
    case Plain(junk, data) => |junk| < 8 && |data| <= 0xFFFF
    case Fixed(ts) => AllReach(ts, out) && AllWritable(FixedTables(), ts) && HasCode(FixedTables().ll, 256)
    case Dynamic(h, ts) =>
      HeaderOk(h) && AllReach(ts, out) && AllWritable(TablesOf(h), ts) && HasCode(TablesOf(h).ll, 256)
  }

  function FixedTables(): Tables
  {
    Tables(FixedLL(), FixedDist())
  }

  function TablesOf(h: Header): Tables
    requires HeaderOk(h)
  {
    Tables(h.lens[..h.hlit], h.lens[h.hlit..])
  }

  /** The two bits of a block's type, the less significant first. */
  function TypeBits(b: Written): seq<bool>
  {
    match b
    case Plain(_, _) => [false, false]
    case Fixed(_) => [true, false]
    case Dynamic(_, _) => [false, true]
  }

  /** The items of a block and its end mark. */
  function Codes(t: Tables, ts: seq<Item>): seq<bool>
    requires AllWritable(t, ts) && HasCode(t.ll, 256)
  {
    CodedItems(t, ts) + CodeBits(t.ll, 256)
  }

  ghost function Body(b: Written, out: seq<byte>): seq<bool>
    requires BlockOk(b, out)
  {
    match b
    case Plain(junk, data) => junk + BytesToBits(StoredBytes(data))
    case Fixed(ts) => Codes(FixedTables(), ts)
    case Dynamic(h, ts) => HeaderBits(h) + Codes(TablesOf(h), ts)
  }

  function After(b: Written, out: seq<byte>): seq<byte>
    requires BlockOk(b, out)
  {
    match b
    case Plain(_, data) => out + data
    case Fixed(ts) => Output(ts, out)
    case Dynamic(_, ts) => Output(ts, out)
  }

  function TypeOf(b: Written): nat
  {
    match b case Plain(_, _) => 0 case Fixed(_) => 1 case Dynamic(_, _) => 2
  }

  lemma FixedFits(t: Tables)
    requires t == FixedTables()
    ensures Fits(t.ll) && Fits(t.dist) && HasCode(t.ll, 256)
  {
    FixedSpace(t.ll);
    FixedDistSpace(t.dist);
  }

  /** The items and the end mark, read back in any two tables. */
  lemma CodesRead(t: Tables, ts: seq<Item>, rest: seq<bool>, out: seq<byte>)
    requires Fits(t.ll) && Fits(t.dist) && HasCode(t.ll, 256) && AllWritable(t, ts) && AllReach(ts, out)
    requires |Output(ts, out)| <= MAX_INFLATE_SIZE
    ensures HuffBlock(t.ll, t.dist, Codes(t, ts) + rest, out) == Done(Output(ts, out), rest)
  {
    Assoc(CodedItems(t, ts), CodeBits(t.ll, 256), rest);
    ItemsRead(t, ts, rest, out);
  }

  lemma FixedReads(t: Tables, ts: seq<Item>, rest: seq<bool>, out: seq<byte>)
    requires t == FixedTables() && AllReach(ts, out) && AllWritable(t, ts) && HasCode(t.ll, 256)
    requires |Output(ts, out)| <= MAX_INFLATE_SIZE
    ensures Block(1, Codes(t, ts) + rest, out) == Done(Output(ts, out), rest)
  {
    FixedFits(t);
    CodesRead(t, ts, rest, out);
  }

  /** A dynamic block of any items, in any tables, in any spelling of the tables, decodes to what they stand for. */
  lemma DynamicReads(h: Header, ts: seq<Item>, rest: seq<bool>, out: seq<byte>)
    requires BlockOk(Dynamic(h, ts), out) && |Output(ts, out)| <= MAX_INFLATE_SIZE
    ensures Block(2, Body(Dynamic(h, ts), out) + rest, out) == Done(Output(ts, out), rest)
  {
    var t := TablesOf(h);
    Assoc(HeaderBits(h), Codes(t, ts), rest);
    HeaderRoundTrip(h, Codes(t, ts) + rest);
    CodesRead(t, ts, rest, out);
  }

  lemma BlockReads(b: Written, rest: seq<bool>, out: seq<byte>)
    requires BlockOk(b, out) && |After(b, out)| <= MAX_INFLATE_SIZE && (b.Plain? ==> Aligned(rest))
    ensures Block(TypeOf(b), Body(b, out) + rest, out) == Done(After(b, out), rest)
  {
    match b
    case Plain(junk, data) =>
      Assoc(junk, BytesToBits(StoredBytes(data)), rest);
      StoredReads(junk, data, rest, out);
    case Fixed(ts) => FixedReads(FixedTables(), ts, rest, out);
    case Dynamic(h, ts) => DynamicReads(h, ts, rest, out);
  }

  /** Blocks one behind another. */
  datatype Stream = Final(block: Written) | Followed(block: Written, next: Stream)

  ghost predicate StreamOk(s: Stream, out: seq<byte>)
  {
    BlockOk(s.block, out) && (s.Followed? ==> StreamOk(s.next, After(s.block, out)))
  }

  /** A closed stream has its last block marked final; an open one goes on. */
  ghost function StreamBits(s: Stream, out: seq<byte>, closed: bool): seq<bool>
    requires StreamOk(s, out)
    decreases s, 1
  {
    [closed && s.Final?] + (TypeBits(s.block) + (Body(s.block, out) + Behind(s, out, closed)))
  }

  /** The blocks behind the first. */
  ghost function Behind(s: Stream, out: seq<byte>, closed: bool): seq<bool>
    requires StreamOk(s, out)
    decreases s, 0
  {
    if s.Final? then [] else StreamBits(s.next, After(s.block, out), closed)
  }

  function Text(s: Stream, out: seq<byte>): seq<byte>
    requires StreamOk(s, out)
  {
    if s.Final? then After(s.block, out) else Text(s.next, After(s.block, out))
  }

  predicate Aligned(bits: seq<bool>)
  {
    |bits| % 8 == 0
  }

  /** With `rest` following, the data of every stored block starts at a byte boundary. */
  ghost predicate AllAligned(s: Stream, out: seq<byte>, closed: bool, rest: seq<bool>)
    requires StreamOk(s, out)
  {
    && (s.block.Plain? ==> Aligned(Behind(s, out, closed) + rest))
    && (s.Followed? ==> AllAligned(s.next, After(s.block, out), closed, rest))
  }

  lemma AfterGrows(b: Written, out: seq<byte>)
    requires BlockOk(b, out)
    ensures |out| <= |After(b, out)|
  {
    match b
    case Plain(_, _) =>
    case Fixed(ts) => OutputGrows(ts, out);
    case Dynamic(_, ts) => OutputGrows(ts, out);
  }

  lemma {:induction false} TextGrows(s: Stream, out: seq<byte>)
    requires StreamOk(s, out)
    ensures |After(s.block, out)| <= |Text(s, out)|
  {
    if s.Followed? {
      AfterGrows(s.next.block, After(s.block, out));
      TextGrows(s.next, After(s.block, out));
    }
  }

  lemma BitRead(b: bool, rest: seq<bool>)
    ensures Field([b] + rest, 1) == Got(Bit(b), rest)
  {
    assert Pow2(1) == 2;
    FieldOf(Bit(b), 1, rest);
    assert Lsb(Bit(b), 1) == [b];
  }

  lemma TypeRead(b: Written, rest: seq<bool>)
    ensures Field(TypeBits(b) + rest, 2) == Got(TypeOf(b), rest)
  {
    assert Pow2(2) == 4;
    FieldOf(TypeOf(b), 2, rest);
    assert Lsb(TypeOf(b), 2) == TypeBits(b);
  }

  lemma Regroup(a: seq<bool>, b: seq<bool>, c: seq<bool>, d: seq<bool>, rest: seq<bool>)
    ensures (a + (b + (c + d))) + rest == a + (b + (c + (d + rest)))
  {
    Assoc(c, d, rest);
    Assoc(b, c + d, rest);
    Assoc(a, b + (c + d), rest);
  }

  /** One block off the front of a stream. */
  lemma BlockStep(last: bool, b: Written, out: seq<byte>, rest: seq<bool>)
    requires BlockOk(b, out) && |After(b, out)| <= MAX_INFLATE_SIZE && (b.Plain? ==> Aligned(rest))
    ensures Blocks([last] + (TypeBits(b) + (Body(b, out) + rest)), out) ==
            if last then Done(After(b, out), rest) else Blocks(rest, After(b, out))
  {
    BitRead(last, TypeBits(b) + (Body(b, out) + rest));
    TypeRead(b, Body(b, out) + rest);
    BlockReads(b, rest, out);
  }

  lemma FirstOfStream(s: Stream, out: seq<byte>, closed: bool, rest: seq<bool>)
    requires StreamOk(s, out) && |After(s.block, out)| <= MAX_INFLATE_SIZE
    requires s.block.Plain? ==> Aligned(Behind(s, out, closed) + rest)
    ensures Blocks(StreamBits(s, out, closed) + rest, out) ==
            if closed && s.Final? then Done(After(s.block, out), Behind(s, out, closed) + rest)
            else Blocks(Behind(s, out, closed) + rest, After(s.block, out))
  {
    var last := closed && s.Final?;
    Regroup([last], TypeBits(s.block), Body(s.block, out), Behind(s, out, closed), rest);
    BlockStep(last, s.block, out, Behind(s, out, closed) + rest);
  }

  /**
    Whatever blocks an encoder chooses to write, stored, fixed or dynamic, in any order, the
    decoder gives back the bytes they stand for, and then stops or goes on with what follows.
   */
  lemma {:induction false} AnyStreamDecodes(s: Stream, out: seq<byte>, closed: bool, rest: seq<bool>)
    requires StreamOk(s, out) && AllAligned(s, out, closed, rest) && |Text(s, out)| <= MAX_INFLATE_SIZE
    ensures Blocks(StreamBits(s, out, closed) + rest, out) ==
            if closed then Done(Text(s, out), rest) else Blocks(rest, Text(s, out))
    decreases s
  {
    TextGrows(s, out);
    FirstOfStream(s, out, closed, rest);
    if s.Final? {
      assert [] + rest == rest;
    } else {
      AnyStreamDecodes(s.next, After(s.block, out), closed, rest);
    }
  }

  lemma AlignedMore(bits: seq<bool>, rest: seq<bool>, more: seq<bool>)
    requires Aligned(bits + rest) && Aligned(more)
    ensures Aligned(bits + (rest + more))
  {
    SameAlignment(|bits + rest|, |more|);
  }

  /** Whole bytes behind a stream change no alignment. */
  lemma {:induction false} AllAlignedMore(s: Stream, out: seq<byte>, closed: bool, rest: seq<bool>, more: seq<bool>)
    requires StreamOk(s, out) && AllAligned(s, out, closed, rest) && Aligned(more)
    ensures AllAligned(s, out, closed, rest + more)
    decreases s
  {
    if s.block.Plain? { AlignedMore(Behind(s, out, closed), rest, more); }
    if s.Followed? { AllAlignedMore(s.next, After(s.block, out), closed, rest, more); }
  }
}
