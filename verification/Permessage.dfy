/** permessage-deflate (RFC 7692) as this agent sends and receives it. */
module Permessage {
  import opened Bits
  import opened BitStreams
  import opened DeflateTables
  import opened Inflate
  import opened InflateProps
  import opened Deflate
  import opened DeflateRoundTrip

  const SYNC_MARKER: seq<byte> := [0x00, 0x00, 0xFF, 0xFF]
  const TRAILER: seq<byte> := [0x00, 0x00, 0xFF, 0xFF, 0x01, 0x00, 0x00, 0xFF, 0xFF]

  function Stripped(out: seq<byte>): seq<byte>
  {
    if |out| >= 4 && out[|out| - 4..] == SYNC_MARKER then out[..|out| - 4] else out
  }

  lemma EobBitsAreZero()
    ensures EobBits() == Zeros(7)
  {
    assert Msb(0, 3) == [false, false, false];
    assert Msb(0, 6) == Msb(0, 5) + [false] && Msb(0, 5) == Msb(0, 4) + [false] && Msb(0, 4) == Msb(0, 3) + [false];
  }

  /** Seven zero bits at the end leave at most the lowest bit of the last byte. */
  lemma LastByteLow(x: seq<bool>, out: seq<byte>)
    requires out == Pack(x + Zeros(7))
    ensures |out| > 0 && out[|out| - 1] <= 1
  {
    var n := |out| - 1;
    PackRoundTrip(x + Zeros(7));
    var all := BytesToBits(out);
    assert forall i :: |x| <= i < |all| ==> !all[i];
    assert out[..n] + [out[n]] == out;
    BytesToBitsPush(out[..n], out[n]);
    HighBitsZero(out[n], all, 8 * n);
  }

  lemma HighBitsZero(v: byte, all: seq<bool>, at: nat)
    requires |all| == at + 8 && all[at..] == Lsb(v, 8)
    requires forall i :: at < i < |all| ==> !all[i]
    ensures v <= 1
  {
    var tail := Lsb(v / 2, 7);
    assert Lsb(v, 8) == [v % 2 == 1] + tail;
    assert tail == all[at..][1..] == Zeros(7);
    LsbPad(0, 0, 7);
    assert Lsb(0, 7) == Zeros(7);
    assert Pow2(7) == 128;
    LsbRoundTrip(v / 2, 7);
    LsbRoundTrip(0, 7);
  }

  /** The last byte of a compressed stream is 0 or 1, so it never ends in the marker. */
  lemma StripNeverFires(data: seq<byte>)
    ensures Stripped(DeflateRaw(data)) == DeflateRaw(data)
    ensures |DeflateRaw(data)| > 0 && DeflateRaw(data)[|DeflateRaw(data)| - 1] <= 1
  {
    var body := Lsb(1, 1) + Lsb(1, 2) + TokensBits(Tokens(data, 0));
    EobBitsAreZero();
    var out := DeflateRaw(data);
    assert out == Pack(body + Zeros(7));
    LastByteLow(body, out);
    MarkerLast(out);
  }

  lemma MarkerLast(out: seq<byte>)
    requires |out| > 0 && out[|out| - 1] <= 1
    ensures Stripped(out) == out
  {
    if |out| >= 4 { assert out[|out| - 4..][3] == out[|out| - 1]; }
  }

  /** Compress a message payload; what strips a sync marker at the end never has one to strip. */
  method Encode(data: seq<byte>) returns (out: seq<byte>)
    requires |data| <= 0x8000_0000
    ensures out == DeflateRaw(data)
  {
    out := Compress(data);
    StripNeverFires(data);
    if |out| >= 4 && out[|out| - 4..] == SYNC_MARKER {
      out := out[..|out| - 4];
    }
  }

  /** The payload of a compressed message, None when it does not inflate within the limit. */
  ghost function Decoded(compressed: seq<byte>): (r: Option<seq<byte>>)
  {
    match Inflated(compressed + TRAILER)
    case Done(out, _) => Some(out)
    case Fail(_, _) => None
  }

  method Decode(compressed: seq<byte>) returns (r: Option<seq<byte>>)
    ensures r == Decoded(compressed)
  {
    var inflated := new ByteVec();
    var res := InflateRaw(compressed + TRAILER, inflated);
    if res.Err? {
      return None;
    }
    BlocksGrow(BytesToBits(compressed + TRAILER), []);
    if |inflated.elems| > MAX_INFLATE_SIZE {
      return None;
    }
    r := Some(inflated.elems);
  }

  /** A received payload is never larger than the limit. */
  lemma DecodedBound(compressed: seq<byte>)
    ensures Decoded(compressed).Some? ==> |Decoded(compressed).value| <= MAX_INFLATE_SIZE
  {
    BlocksGrow(BytesToBits(compressed + TRAILER), []);
  }

  /** The receiver recovers a compressed message exactly when it is within the limit. */
  lemma PermessageRoundTrip(data: seq<byte>)
    ensures Decoded(DeflateRaw(data)) == if |data| <= MAX_INFLATE_SIZE then Some(data) else None
  {
    InflateUndoesDeflate(data, TRAILER);
  }
}
