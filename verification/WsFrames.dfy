/**
  WebSocket frames (sections 5.2 to 5.5 of RFC 6455) as this agent reads and writes them:
  a parser over complete byte strings, and the writer proved to be read back by it.
 */
module WsFrames {
  import opened Bits
  import opened Deflate
  import opened Inflate
  import opened DeflateRoundTrip
  import opened Permessage

  const MAX_FRAME_SIZE: nat := 1048576
  const MASK_CHUNK_SIZE: nat := 4096

  datatype Reason =
    | ReservedBits | BadOpcode | BadControl | BadCompression | UnexpectedContinuation | UnfinishedMessage
    | TooLarge | BadPayload | FailedReader

  datatype Message =
    | Text(payload: seq<byte>) | Binary(payload: seq<byte>) | Ping(payload: seq<byte>) | Pong(payload: seq<byte>)
    | Close

  datatype Frame = Frame(fin: bool, opcode: nat, compressed: bool, payload: seq<byte>)

  /** The data message being reassembled; opcode 0 when there is none. */
  datatype Assembly = Assembly(opcode: nat, compressed: bool, message: seq<byte>)

  const NO_MESSAGE := Assembly(0, false, [])

  // ---- Header fields ----

  predicate Fin(h0: byte) { h0 >= 0x80 }
  predicate Rsv1(h0: byte) { h0 / 0x40 % 2 == 1 }
  predicate Rsv23(h0: byte) { h0 / 0x10 % 4 != 0 }
  function Opcode(h0: byte): nat { h0 % 0x10 }
  predicate Masked(h1: byte) { h1 >= 0x80 }
  function ShortLen(h1: byte): nat { h1 % 0x80 }

  predicate IsControl(opcode: nat) { 8 <= opcode <= 10 }

  function LengthEnd(h1: byte): nat
  {
    if ShortLen(h1) == 126 then 4 else if ShortLen(h1) == 127 then 10 else 2
  }

  function HeaderLen(h1: byte): (n: nat)
    ensures 2 <= n <= 14
  {
    LengthEnd(h1) + if Masked(h1) then 4 else 0
  }

  /** What is wrong with the first two bytes of a frame, given the message in flight. */
  function HeaderError(a: Assembly, compression: bool, h0: byte, h1: byte): Option<Reason>
  {
    var op := Opcode(h0);
    if Rsv23(h0) then Some(ReservedBits)
    else if !(op <= 2 || IsControl(op)) then Some(BadOpcode)
    else if IsControl(op) && (!Fin(h0) || ShortLen(h1) > 125 || Rsv1(h0)) then Some(BadControl)
    else if Rsv1(h0) && (!compression || op == 0) then Some(BadCompression)
    else if op == 0 && a.opcode == 0 then Some(UnexpectedContinuation)
    else if 1 <= op <= 2 && a.opcode != 0 then Some(UnfinishedMessage)
    else None
  }

  function BigEndian(s: seq<byte>): nat
  {
    if s == [] then 0 else 256 * BigEndian(s[..|s| - 1]) + s[|s| - 1]
  }

  function PayloadLen(header: seq<byte>): nat
    requires |header| >= 2 && |header| >= LengthEnd(header[1])
  {
    var n := ShortLen(header[1]);
    if n == 126 then BigEndian(header[2..4]) else if n == 127 then BigEndian(header[2..10]) else n
  }

  predicate LengthAllowed(a: Assembly, opcode: nat, n: nat)
  {
    n <= MAX_FRAME_SIZE && (IsControl(opcode) || n + |a.message| <= MAX_FRAME_SIZE)
  }

  /** Masking and unmasking: exclusive or with the repeated four-byte key. */
  function Mask(data: seq<byte>, key: seq<byte>): (r: seq<byte>)
    requires |key| == 4
    ensures |r| == |data|
  {
    seq(|data|, i requires 0 <= i < |data| => XorByte(data[i], key[i % 4]))
  }

  function XorByte(x: byte, y: byte): byte
  {
    assert Pow2(8) == 256;
    XorBound(x, y, 8);
    Xor(x, y)
  }

  function FramePayload(header: seq<byte>, payload: seq<byte>): seq<byte>
    requires |header| >= 2 && |header| == HeaderLen(header[1])
  {
    if Masked(header[1]) then Mask(payload, header[LengthEnd(header[1])..]) else payload
  }

  // ---- The parser ----

  datatype FrameParse = NeedMore | BadFrame(reason: Reason) | FrameAt(frame: Frame, rest: seq<byte>)

  /** The frame at the front of a byte string. */
  function ParseFrame(a: Assembly, compression: bool, s: seq<byte>): (r: FrameParse)
    ensures r.FrameAt? ==> |r.rest| < |s|
  {
    if |s| < 2 then NeedMore
    else
      match HeaderError(a, compression, s[0], s[1])
      case Some(e) => BadFrame(e)
      case None =>
        if |s| < HeaderLen(s[1]) then NeedMore else ParseBody(a, s[..HeaderLen(s[1])], s[HeaderLen(s[1])..])
  }

  /** The frame that a complete, acceptable header starts. */
  function ParseBody(a: Assembly, header: seq<byte>, s: seq<byte>): (r: FrameParse)
    requires |header| >= 2 && |header| == HeaderLen(header[1])
    ensures r.FrameAt? ==> |r.rest| <= |s|
  {
    var n := PayloadLen(header);
    if !LengthAllowed(a, Opcode(header[0]), n) then BadFrame(TooLarge)
    else if |s| < n then NeedMore
    else
      FrameAt(Frame(Fin(header[0]), Opcode(header[0]), Rsv1(header[0]), FramePayload(header, s[..n])), s[n..])
  }

  lemma ParseAfterHeader(a: Assembly, compression: bool, header: seq<byte>, s: seq<byte>)
    requires |header| >= 2 && |header| == HeaderLen(header[1])
    requires HeaderError(a, compression, header[0], header[1]) == None
    ensures ParseFrame(a, compression, header + s) == ParseBody(a, header, s)
  {
    assert (header + s)[..|header|] == header && (header + s)[|header|..] == s;
  }

  /** A complete header and payload are a frame, and what follows is left alone. */
  lemma ParseComplete(a: Assembly, compression: bool, header: seq<byte>, body: seq<byte>, rest: seq<byte>)
    requires |header| >= 2 && HeaderError(a, compression, header[0], header[1]) == None
    requires |header| == HeaderLen(header[1]) && PayloadLen(header) == |body|
    requires LengthAllowed(a, Opcode(header[0]), |body|)
    ensures ParseFrame(a, compression, header + body + rest) ==
            FrameAt(Frame(Fin(header[0]), Opcode(header[0]), Rsv1(header[0]), FramePayload(header, body)), rest)
  {
    Assoc(header, body, rest);
    ParseAfterHeader(a, compression, header, body + rest);
    assert (body + rest)[..|body|] == body && (body + rest)[|body|..] == rest;
  }

  datatype FrameStep = Emit(msg: Message, next: Assembly) | More(next: Assembly) | Reject(reason: Reason)

  function Extended(a: Assembly, f: Frame): Assembly
  {
    if f.opcode != 0 then Assembly(f.opcode, f.compressed, f.payload) else a.(message := a.message + f.payload)
  }

  function DataMessage(opcode: nat, payload: seq<byte>): Message
  {
    if opcode == 1 then Text(payload) else Binary(payload)
  }

  ghost function Completed(a: Assembly): FrameStep
  {
    if !a.compressed then Emit(DataMessage(a.opcode, a.message), NO_MESSAGE)
    else
      match Decoded(a.message)
      case Some(payload) => Emit(DataMessage(a.opcode, payload), NO_MESSAGE)
      case None => Reject(BadPayload)
  }

  /** What a frame does to the message in flight. */
  ghost function OnFrame(a: Assembly, f: Frame): FrameStep
  {
    if f.opcode == 8 then Emit(Close, NO_MESSAGE)
    else if f.opcode == 9 then Emit(Ping(f.payload), a)
    else if f.opcode == 10 then Emit(Pong(f.payload), a)
    else if !f.fin then More(Extended(a, f))
    else Completed(Extended(a, f))
  }

  /** The next message of a byte string, or how it ends without one. */
  datatype Outcome =
    | Next(msg: Message, a: Assembly, rest: seq<byte>)
    | Pending(a: Assembly, rest: seq<byte>)
    | Broken(reason: Reason)

  ghost function NextMessage(a: Assembly, compression: bool, s: seq<byte>): (r: Outcome)
    ensures r.Next? ==> |r.rest| < |s|
    decreases |s|
  {
    match ParseFrame(a, compression, s)
    case NeedMore => Pending(a, s)
    case BadFrame(e) => Broken(e)
    case FrameAt(f, rest) => AfterStep(OnFrame(a, f), compression, s, rest)
  }

  ghost function AfterStep(step: FrameStep, compression: bool, s: seq<byte>, rest: seq<byte>): (r: Outcome)
    requires |rest| < |s|
    ensures r.Next? ==> |r.rest| < |s|
    decreases |s|, 0
  {
    match step
    case Emit(msg, a) => Next(msg, a, rest)
    case More(a) => NextMessage(a, compression, rest)
    case Reject(e) => Broken(e)
  }

  /** Every message of a byte string, in order. */
  ghost function AllMessages(a: Assembly, compression: bool, s: seq<byte>): seq<Message>
    decreases |s|
  {
    match NextMessage(a, compression, s)
    case Next(msg, a', rest) => [msg] + AllMessages(a', compression, rest)
    case _ => []
  }

  /** What is left of a byte string after all its messages. */
  ghost function Ending(a: Assembly, compression: bool, s: seq<byte>): (r: Outcome)
    ensures !r.Next?
    decreases |s|
  {
    match NextMessage(a, compression, s)
    case Next(_, a', rest) => Ending(a', compression, rest)
    case end => end
  }

  // ---- Masking ----

  /** The mask is its own inverse. */
  lemma MaskTwice(data: seq<byte>, key: seq<byte>)
    requires |key| == 4
    ensures Mask(Mask(data, key), key) == data
  {
    forall i | 0 <= i < |data| ensures Mask(Mask(data, key), key)[i] == data[i] {
      XorTwice(data[i], key[i % 4]);
    }
  }

  lemma ShiftByFours(i: nat, n: nat)
    requires n % 4 == 0 && n <= i
    ensures i % 4 == (i - n) % 4
  {
  }

  /** Masking chunks of a multiple of four bytes separately masks the whole. */
  lemma MaskChunks(a: seq<byte>, b: seq<byte>, key: seq<byte>)
    requires |key| == 4 && |a| % 4 == 0
    ensures Mask(a + b, key) == Mask(a, key) + Mask(b, key)
  {
    var n := |a|;
    forall i | 0 <= i < |a + b| ensures Mask(a + b, key)[i] == (Mask(a, key) + Mask(b, key))[i] {
      if i >= n { ShiftByFours(i, n); }
    }
  }

  /** Mask a buffer in place. */
  method ApplyMask(data: array<byte>, n: nat, key: seq<byte>)
    requires n <= data.Length && |key| == 4
    modifies data
    ensures data[..n] == Mask(old(data[..n]), key) && data[n..] == old(data[n..])
  {
    for i := 0 to n
      invariant data[..i] == Mask(old(data[..n]), key)[..i]
      invariant data[i..] == old(data[i..])
    {
      data[i] := XorByte(data[i], key[i % 4]);
    }
  }

  // ---- The writer ----

  function ToBigEndian(v: nat, n: nat): (s: seq<byte>)
    ensures |s| == n
  {
    if n == 0 then [] else ToBigEndian(v / 256, n - 1) + [v % 256]
  }

  function FrameHeader(opcode: nat, len: nat, rsv1: bool): (h: seq<byte>)
    requires opcode < 16
    ensures 2 <= |h| <= 10
  {
    var h0: byte := (if rsv1 then 0xC0 else 0x80) + opcode;
    if len < 126 then [h0, 0x80 + len]
    else if len <= 0xFFFF then [h0, 0x80 + 126] + ToBigEndian(len, 2)
    else [h0, 0x80 + 127] + ToBigEndian(len, 8)
  }

  /** One final masked frame. */
  function FrameBytes(opcode: nat, payload: seq<byte>, rsv1: bool, key: seq<byte>): seq<byte>
    requires opcode < 16 && |key| == 4
  {
    FrameHeader(opcode, |payload|, rsv1) + key + Mask(payload, key)
  }

  function WireFrame(opcode: nat, payload: seq<byte>, compress: bool, key: seq<byte>): seq<byte>
    requires opcode < 16 && |key| == 4
  {
    FrameBytes(opcode, if compress then DeflateRaw(payload) else payload, compress, key)
  }

  /** Where the writer sends its bytes. */
  class Sink {
    var sent: seq<byte>
    constructor ()
      ensures sent == []
    {
      sent := [];
    }
  }

  /** The header in a fixed 14-byte buffer, and how much of it is used. */
  method BuildFrameHeader(opcode: nat, len: nat, rsv1: bool) returns (buf: array<byte>, used: nat)
    requires opcode < 16 && len < 0x1_0000_0000_0000_0000
    ensures fresh(buf) && buf.Length == 14 && used <= 14 && buf[..used] == FrameHeader(opcode, len, rsv1)
  {
    buf := new byte[14](_ => 0);
    buf[0] := (if rsv1 then 0xC0 else 0x80) + opcode;
    if len < 126 {
      buf[1] := 0x80 + len;
      return buf, 2;
    }
    var n := if len <= 0xFFFF then 2 else 8;
    buf[1] := 0x80 + if len <= 0xFFFF then 126 else 127;
    var be := ToBigEndian(len, n);
    for i := 0 to n
      invariant buf[..2] == FrameHeader(opcode, len, rsv1)[..2]
      invariant buf[2..2 + i] == be[..i]
    {
      buf[2 + i] := be[i];
    }
    used := 2 + n;
    assert buf[..used] == buf[..2] + buf[2..used];
  }

  method SendChunk(out: Sink, chunk: array<byte>, part: seq<byte>, key: seq<byte>)
    requires |key| == 4 && |part| <= chunk.Length
    modifies out, chunk
    ensures out.sent == old(out.sent) + Mask(part, key)
  {
    forall i | 0 <= i < |part| {
      chunk[i] := part[i];
    }
    assert chunk[..|part|] == part;
    ApplyMask(chunk, |part|, key);
    out.sent := out.sent + chunk[..|part|];
  }

  lemma SplitPayload(payload: seq<byte>, pos: nat, len: nat, key: seq<byte>)
    requires |key| == 4 && pos + len <= |payload| && pos % 4 == 0
    ensures Mask(payload[..pos + len], key) == Mask(payload[..pos], key) + Mask(payload[pos..pos + len], key)
  {
    MaskChunks(payload[..pos], payload[pos..pos + len], key);
    assert payload[..pos + len] == payload[..pos] + payload[pos..pos + len];
  }

  /** Mask and send the payload one stack buffer at a time. */
  method SendMasked(out: Sink, payload: seq<byte>, key: seq<byte>)
    requires |key| == 4
    modifies out
    ensures out.sent == old(out.sent) + Mask(payload, key)
  {
    var chunk := new byte[MASK_CHUNK_SIZE](_ => 0);
    var pos := 0;
    ghost var before := out.sent;
    while pos < |payload|
      invariant pos <= |payload| && (pos < |payload| ==> pos % 4 == 0)
      invariant out.sent == before + Mask(payload[..pos], key)
    {
      var len := if |payload| - pos < MASK_CHUNK_SIZE then |payload| - pos else MASK_CHUNK_SIZE;
      SplitPayload(payload, pos, len, key);
      Assoc(before, Mask(payload[..pos], key), Mask(payload[pos..pos + len], key));
      SendChunk(out, chunk, payload[pos..pos + len], key);
      pos := pos + len;
    }
    assert payload[..pos] == payload;
  }

  method WriteMaskedFrame(out: Sink, opcode: nat, payload: seq<byte>, compress: bool, key: seq<byte>)
    requires opcode < 16 && |key| == 4 && |payload| < 0x1_0000_0000_0000_0000
    requires compress ==> |payload| <= 0x8000_0000
    modifies out
    ensures out.sent == old(out.sent) + WireFrame(opcode, payload, compress, key)
  {
    var framePayload := payload;
    if compress {
      framePayload := Encode(payload);
      ExpansionBound(payload);
    }
    var header, used := BuildFrameHeader(opcode, |framePayload|, compress);
    out.sent := out.sent + header[..used];
    out.sent := out.sent + key;
    SendMasked(out, framePayload, key);
  }

  // ---- Reading back what was written ----

  lemma {:induction false} BigEndianRoundTrip(v: nat, n: nat)
    requires v < Pow2(8 * n)
    ensures BigEndian(ToBigEndian(v, n)) == v
  {
    if n != 0 {
      assert Pow2(8 * n) == 256 * Pow2(8 * (n - 1)) by { Pow2Byte(8 * (n - 1)); }
      BigEndianRoundTrip(v / 256, n - 1);
      assert ToBigEndian(v, n)[..n - 1] == ToBigEndian(v / 256, n - 1);
    }
  }

  lemma Pow2Byte(n: nat)
    ensures Pow2(n + 8) == 256 * Pow2(n)
  {
    assert Pow2(n + 4) == 16 * Pow2(n) by { assert Pow2(n + 2) == 4 * Pow2(n); }
    assert Pow2(n + 6) == 64 * Pow2(n);
  }

  lemma LengthFits(len: nat, n: nat)
    requires len <= MAX_FRAME_SIZE && (if len <= 0xFFFF then n == 2 else n == 8)
    ensures BigEndian(ToBigEndian(len, n)) == len
  {
    Pow2Byte(0);
    Pow2Byte(8);
    Pow2Byte(16);
    Pow2Mono(24, 64);
    BigEndianRoundTrip(len, n);
  }

  /** The reader finds the written length in the header. */
  lemma LengthReads(opcode: nat, len: nat, rsv1: bool, key: seq<byte>)
    requires opcode < 16 && |key| == 4 && len <= MAX_FRAME_SIZE
    ensures var h := FrameHeader(opcode, len, rsv1);
      LengthEnd(h[1]) == |h| && PayloadLen(h + key) == len && (ShortLen(h[1]) <= 125 <==> len <= 125)
  {
    var h := FrameHeader(opcode, len, rsv1);
    if len >= 126 {
      var n := if len <= 0xFFFF then 2 else 8;
      LengthFits(len, n);
      assert (h + key)[2..2 + n] == ToBigEndian(len, n);
    }
  }

  /** The reader finds the written opcode and flags in the header. */
  lemma HeaderReads(opcode: nat, len: nat, rsv1: bool)
    requires opcode < 16
    ensures var h := FrameHeader(opcode, len, rsv1);
      Fin(h[0]) && Rsv1(h[0]) == rsv1 && !Rsv23(h[0]) && Opcode(h[0]) == opcode && Masked(h[1])
  {
  }

  ghost predicate Sendable(a: Assembly, compression: bool, opcode: nat, len: nat, rsv1: bool)
  {
    && (IsControl(opcode) ==> len <= 125 && !rsv1)
    && (1 <= opcode <= 2 || IsControl(opcode))
    && (1 <= opcode <= 2 ==> a.opcode == 0 && len + |a.message| <= MAX_FRAME_SIZE && (rsv1 ==> compression))
  }

  /** A written frame parses back to its payload, and nothing after it is touched. */
  lemma FrameRoundTrip(a: Assembly, compression: bool, opcode: nat, payload: seq<byte>, rsv1: bool,
                       key: seq<byte>, rest: seq<byte>)
    requires |key| == 4 && Sendable(a, compression, opcode, |payload|, rsv1)
    ensures ParseFrame(a, compression, FrameBytes(opcode, payload, rsv1, key) + rest) ==
            FrameAt(Frame(true, opcode, rsv1, payload), rest)
  {
    var h := FrameHeader(opcode, |payload|, rsv1);
    var header, body := h + key, Mask(payload, key);
    HeaderReads(opcode, |payload|, rsv1);
    LengthReads(opcode, |payload|, rsv1, key);
    MaskTwice(payload, key);
    assert header[0] == h[0] && header[1] == h[1] && header[|h|..] == key;
    ParseComplete(a, compression, header, body, rest);
  }

  lemma BodyCompletes(opcode: nat, payload: seq<byte>, compress: bool, body: seq<byte>)
    requires 1 <= opcode <= 2 && |payload| <= MAX_FRAME_SIZE
    requires body == if compress then DeflateRaw(payload) else payload
    ensures OnFrame(NO_MESSAGE, Frame(true, opcode, compress, body)) == Emit(DataMessage(opcode, payload), NO_MESSAGE)
  {
    if compress { PermessageRoundTrip(payload); }
  }

  /**
    Whatever the mask key, a text or binary message, compressed or not, is read back
    whole when it and its frame fit the limit.
   */
  lemma MessageRoundTrip(compression: bool, opcode: nat, payload: seq<byte>, compress: bool,
                         key: seq<byte>, rest: seq<byte>)
    requires |key| == 4 && 1 <= opcode <= 2 && (compress ==> compression)
    requires |payload| <= MAX_FRAME_SIZE && (compress ==> |DeflateRaw(payload)| <= MAX_FRAME_SIZE)
    ensures NextMessage(NO_MESSAGE, compression, WireFrame(opcode, payload, compress, key) + rest) ==
            Next(DataMessage(opcode, payload), NO_MESSAGE, rest)
  {
    var body := if compress then DeflateRaw(payload) else payload;
    FrameRoundTrip(NO_MESSAGE, compression, opcode, body, compress, key, rest);
    BodyCompletes(opcode, payload, compress, body);
  }

  /** Compression never breaks the round trip for payloads of up to 932,066 bytes. */
  lemma CompressedRoundTrip(opcode: nat, payload: seq<byte>, key: seq<byte>, rest: seq<byte>)
    requires |key| == 4 && 1 <= opcode <= 2 && |payload| <= 932066
    ensures NextMessage(NO_MESSAGE, true, WireFrame(opcode, payload, true, key) + rest) ==
            Next(DataMessage(opcode, payload), NO_MESSAGE, rest)
  {
    ExpansionBound(payload);
    MessageRoundTrip(true, opcode, payload, true, key, rest);
  }

  /** A ping or pong of up to 125 bytes is read back even in the middle of a message. */
  lemma ControlRoundTrip(a: Assembly, compression: bool, opcode: nat, payload: seq<byte>, key: seq<byte>,
                         rest: seq<byte>)
    requires |key| == 4 && 9 <= opcode <= 10 && |payload| <= 125
    ensures NextMessage(a, compression, WireFrame(opcode, payload, false, key) + rest) ==
            Next(if opcode == 9 then Ping(payload) else Pong(payload), a, rest)
  {
    FrameRoundTrip(a, compression, opcode, payload, false, key, rest);
  }
}
