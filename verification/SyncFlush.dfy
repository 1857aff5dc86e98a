/**
  Compressed messages as section 7.2.1 of RFC 7692 has a peer send them: blocks none of which is
  final, then a sync flush, an empty stored block whose four bytes 00 00 FF FF are taken off.
 */
module SyncFlush {
  import opened Bits
  import opened BitStreams
  import opened Inflate
  import opened InflateProps
  import opened DeflateRoundTrip
  import opened DynamicBlocks
  import opened Permessage

  // ---- Runs of blocks that are not final ----

  /** How far decoding has come: the output, and the bits still to be read. */
  datatype Point = Point(out: seq<byte>, rest: seq<bool>)

  /** A block that is not final leads from `p` to `q`, within the output limit. */
  ghost predicate OpenBlock(p: Point, q: Point)
  {
    && |p.rest| >= 3 && !p.rest[0] && |q.out| <= 1048576
    && Block(Bit(p.rest[1]) + 2 * Bit(p.rest[2]), p.rest[3..], p.out) == Done(q.out, q.rest)
  }

  /** Any number of blocks, none of them final. */
  ghost predicate OpenRun(run: seq<Point>)
  {
    run != [] && forall k :: 0 < k < |run| ==> OpenBlock(run[k - 1], run[k])
  }

  lemma TwoBits(a: bool, b: bool, v: nat, rest: seq<bool>)
    requires v == Bit(a) + 2 * Bit(b)
    ensures Field([a, b] + rest, 2) == Got(v, rest)
  {
    assert Pow2(2) == 4;
    FieldOf(v, 2, rest);
    assert Lsb(v, 2) == [a, b];
  }

  /** A block that is not final is read, and decoding goes on behind it. */
  lemma OpenStep(a: bool, b: bool, btype: nat, tail: seq<bool>, out: seq<byte>, o: seq<byte>, rest: seq<bool>)
    requires btype == Bit(a) + 2 * Bit(b) && Block(btype, tail, out) == Done(o, rest) && |o| <= MAX_INFLATE_SIZE
    ensures Blocks([false] + ([a, b] + tail), out) == Blocks(rest, o)
  {
    BitRead(false, [a, b] + tail);
    TwoBits(a, b, btype, tail);
  }

  lemma OpenStepAnd(a: bool, b: bool, btype: nat, tail: seq<bool>, out: seq<byte>, o: seq<byte>, rest: seq<bool>,
                    more: seq<bool>)
    requires btype == Bit(a) + 2 * Bit(b) && Block(btype, tail, out) == Done(o, rest) && |o| <= MAX_INFLATE_SIZE
    requires |more| % 8 == 0
    ensures Blocks([false] + ([a, b] + (tail + more)), out) == Blocks(rest + more, o)
  {
    BlockExtend(btype, tail, out, more);
    OpenStep(a, b, btype, tail + more, out, o, rest + more);
  }

  lemma HeadOf(bits: seq<bool>, more: seq<bool>)
    requires |bits| >= 3 && !bits[0]
    ensures bits + more == [false] + ([bits[1], bits[2]] + (bits[3..] + more))
  {
  }

  lemma BlockGoesOn(p: Point, q: Point, more: seq<bool>)
    requires OpenBlock(p, q) && |more| % 8 == 0
    ensures Blocks(p.rest + more, p.out) == Blocks(q.rest + more, q.out)
  {
    var btype := Bit(p.rest[1]) + 2 * Bit(p.rest[2]);
    HeadOf(p.rest, more);
    OpenStepAnd(p.rest[1], p.rest[2], btype, p.rest[3..], p.out, q.out, q.rest, more);
  }

  /** What follows such a run is decoded as if it stood there alone. */
  lemma {:induction false} RunGoesOn(run: seq<Point>, k: nat, more: seq<bool>)
    requires OpenRun(run) && k < |run| && |more| % 8 == 0
    ensures Blocks(run[0].rest + more, run[0].out) == Blocks(run[k].rest + more, run[k].out)
  {
    if k > 0 {
      RunGoesOn(run, k - 1, more);
      BlockGoesOn(run[k - 1], run[k], more);
    }
  }

  // ---- The trailer ----

  /** An empty stored block with its header bits in front: read, it leaves everything as it was. */
  lemma EmptyBlock(last: bool, junk: seq<bool>, marker: seq<byte>, out: seq<byte>, rest: seq<bool>)
    requires |junk| < 8 && Aligned(rest) && |out| <= MAX_INFLATE_SIZE && marker == StoredBytes([])
    ensures Blocks([last] + ([false, false] + (junk + (BytesToBits(marker) + rest))), out) ==
            if last then Done(out, rest) else Blocks(rest, out)
  {
    assert out + [] == out;
    Assoc(junk, BytesToBits(marker), rest);
    BlockStep(last, Plain(junk, []), out, rest);
  }

  lemma OneByte(b: byte)
    requires b == 1
    ensures BytesToBits([b]) == [true] + ([false, false] + Zeros(5))
  {
    assert BytesToBits([b]) == Lsb(b, 8) + [];
    LsbPad(b, 1, 7);
    assert Lsb(b, 1) == [true] && Zeros(7) == [false, false] + Zeros(5);
  }

  /** The byte 01 and the marker: a final stored block without data. */
  lemma FinalMarker(first: byte, marker: seq<byte>, out: seq<byte>)
    requires first == 1 && marker == StoredBytes([]) && |out| <= MAX_INFLATE_SIZE
    ensures Blocks(BytesToBits([first] + marker), out) == Done(out, [])
  {
    BytesToBitsAppend([first], marker);
    OneByte(first);
    EmptyBlock(true, Zeros(5), marker, out, []);
    assert BytesToBits(marker) + [] == BytesToBits(marker);
    Assoc([true], [false, false] + Zeros(5), BytesToBits(marker));
    Assoc([false, false], Zeros(5), BytesToBits(marker));
  }

  /** The three bits of an empty stored block, some padding, and the marker. */
  function FlushBits(junk: seq<bool>, marker: seq<byte>): seq<bool>
  {
    [false] + ([false, false] + (junk + BytesToBits(marker)))
  }

  /** A run over the message with its marker put back that ends in the sync flush. */
  ghost predicate FlushedRun(run: seq<Point>, junk: seq<bool>, c: seq<byte>, marker: seq<byte>, d: seq<byte>)
  {
    && OpenRun(run) && |junk| < 8 && run[0] == Point([], BytesToBits(c + marker))
    && run[|run| - 1] == Point(d, FlushBits(junk, marker))
  }

  lemma FlushedThen(d: seq<byte>, junk: seq<bool>, marker: seq<byte>, more: seq<bool>)
    requires |junk| < 8 && Aligned(more) && |d| <= MAX_INFLATE_SIZE && marker == StoredBytes([])
    ensures Blocks(FlushBits(junk, marker) + more, d) == Blocks(more, d)
  {
    var m := BytesToBits(marker);
    Assoc([false], [false, false] + (junk + m), more);
    Assoc([false, false], junk + m, more);
    Assoc(junk, m, more);
    EmptyBlock(false, junk, marker, d, more);
  }

  /** With the marker and the final block put back, the message inflates. */
  lemma TrailerEnds(run: seq<Point>, junk: seq<bool>, c: seq<byte>, marker: seq<byte>, first: byte, d: seq<byte>)
    requires FlushedRun(run, junk, c, marker, d) && marker == StoredBytes([]) && first == 1 && |d| <= MAX_INFLATE_SIZE
    ensures Blocks(BytesToBits((c + marker) + ([first] + marker)), []) == Done(d, [])
  {
    var last := [first] + marker;
    BytesToBitsAppend(c + marker, last);
    WholeBytes(|last|, |BytesToBits(last)|);
    FlushedThen(d, junk, marker, BytesToBits(last));
    FinalMarker(first, marker, d);
    RunGoesOn(run, |run| - 1, BytesToBits(last));
  }

  lemma TrailerIs(c: seq<byte>, marker: seq<byte>)
    requires marker == [0x00, 0x00, 0xFF, 0xFF]
    ensures c + TRAILER == (c + marker) + ([1] + marker)
  {
  }

  lemma DecodesBy(c: seq<byte>, bytes: seq<byte>, d: seq<byte>)
    requires bytes == c + TRAILER && Blocks(BytesToBits(bytes), []) == Done(d, [])
    ensures Decoded(c) == Some(d)
  {
  }

  /**
    A peer's message: whatever its blocks are, once it has been flushed and its marker taken off,
    the decoder gives back the bytes the blocks stand for.
   */
  lemma FlushedMessageDecodes(run: seq<Point>, junk: seq<bool>, c: seq<byte>, marker: seq<byte>, d: seq<byte>)
    requires marker == [0x00, 0x00, 0xFF, 0xFF] && FlushedRun(run, junk, c, marker, d) && |d| <= 1048576
    ensures Decoded(c) == Some(d)
  {
    assert marker == StoredBytes([]);
    TrailerEnds(run, junk, c, marker, 1, d);
    TrailerIs(c, marker);
    DecodesBy(c, (c + marker) + ([1] + marker), d);
  }

  /** The message of a peer that writes the blocks of `s` and flushes them. */
  ghost predicate FlushedStream(s: Stream, junk: seq<bool>, c: seq<byte>, marker: seq<byte>)
  {
    && StreamOk(s, []) && |Text(s, [])| <= 1048576 && |junk| < 8
    && AllAligned(s, [], false, FlushBits(junk, marker))
    && BytesToBits(c + marker) == StreamBits(s, [], false) + FlushBits(junk, marker)
  }

  lemma StreamEnds(s: Stream, junk: seq<bool>, c: seq<byte>, marker: seq<byte>, first: byte)
    requires FlushedStream(s, junk, c, marker) && marker == StoredBytes([]) && first == 1
    ensures Blocks(BytesToBits((c + marker) + ([first] + marker)), []) == Done(Text(s, []), [])
  {
    var last, flush := BytesToBits([first] + marker), FlushBits(junk, marker);
    BytesToBitsAppend(c + marker, [first] + marker);
    WholeBytes(|[first] + marker|, |last|);
    Assoc(StreamBits(s, [], false), flush, last);
    AllAlignedMore(s, [], false, flush, last);
    AnyStreamDecodes(s, [], false, flush + last);
    FlushedThen(Text(s, []), junk, marker, last);
    FinalMarker(first, marker, Text(s, []));
  }

  lemma MarkerIsStored(marker: seq<byte>)
    requires marker == [0x00, 0x00, 0xFF, 0xFF]
    ensures marker == StoredBytes([])
  {
  }

  /** The same from the side of the peer: any stored, fixed and dynamic blocks, flushed. */
  lemma AnyBlocksFlushed(s: Stream, junk: seq<bool>, c: seq<byte>, marker: seq<byte>)
    requires marker == [0x00, 0x00, 0xFF, 0xFF] && FlushedStream(s, junk, c, marker)
    ensures Decoded(c) == Some(Text(s, []))
  {
    MarkerIsStored(marker);
    StreamEnds(s, junk, c, marker, 1);
    TrailerIs(c, marker);
    DecodesBy(c, (c + marker) + ([1] + marker), Text(s, []));
  }
}
