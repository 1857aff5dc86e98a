/**
  Frames as section 5.2 of RFC 6455 has a peer write them, byte by byte, and messages cut into
  any fragments with control frames between them, read back whole.
 */
module WsReassembly {
  import opened Bits
  import opened Permessage
  import opened SyncFlush
  import opened WsFrames

  // ---- One frame of a peer ----

  /** The payload length in the shortest of its three forms; `mask` is the bit in front of it. */
  function LengthBytes(n: nat, mask: bool): seq<byte>
    requires n <= 0xFF_FFFF
  {
    var m := if mask then 128 else 0;
    if n <= 125 then [m + n]
    else if n <= 0xFFFF then [m + 126, n / 256, n % 256]
    else [m + 127, 0, 0, 0, 0, 0, n / 65536, n / 256 % 256, n % 256]
  }

  /** FIN, RSV1, RSV2 and RSV3 together, and the opcode. */
  datatype Flags = Flags(fin: bool, rsv1: bool, rsv23: nat, opcode: nat)

  predicate FlagsOk(f: Flags)
  {
    f.rsv23 < 4 && f.opcode < 16
  }

  function FirstByte(f: Flags): byte
    requires FlagsOk(f)
  {
    (if f.fin then 128 else 0) + (if f.rsv1 then 64 else 0) + 16 * f.rsv23 + f.opcode
  }

  predicate KeyOk(key: Option<seq<byte>>)
  {
    key.Some? ==> |key.value| == 4
  }

  /** Everything in front of the payload. */
  function HeaderOf(f: Flags, n: nat, key: Option<seq<byte>>): seq<byte>
    requires FlagsOk(f) && n <= 0xFF_FFFF
  {
    [FirstByte(f)] + LengthBytes(n, key.Some?) + if key.Some? then key.value else []
  }

  /** A frame, its payload masked when there is a key. */
  function PeerFrame(f: Flags, payload: seq<byte>, key: Option<seq<byte>>): seq<byte>
    requires FlagsOk(f) && |payload| <= 0xFF_FFFF && KeyOk(key)
  {
    HeaderOf(f, |payload|, key) + if key.Some? then Mask(payload, key.value) else payload
  }

  /** What sections 5.2, 5.4 and 5.5 of RFC 6455 and the limits of this agent allow. */
  predicate Allowed(a: Assembly, compression: bool, f: Flags, n: nat)
  {
    && f.rsv23 == 0 && f.opcode in {0, 1, 2, 8, 9, 10}
    && (f.opcode >= 8 ==> f.fin && !f.rsv1 && n <= 125)
    && (f.rsv1 ==> compression && f.opcode != 0)
    && (f.opcode == 0 ==> a.opcode != 0) && (f.opcode in {1, 2} ==> a.opcode == 0)
    && (f.opcode <= 2 ==> n + |a.message| <= 1048576)
  }

  lemma FirstByteReads(f: Flags)
    requires FlagsOk(f)
    ensures var h0 := FirstByte(f);
      Fin(h0) == f.fin && Rsv1(h0) == f.rsv1 && (Rsv23(h0) <==> f.rsv23 != 0) && Opcode(h0) == f.opcode
  {
  }

  lemma TwoBytes(s: seq<byte>, a: nat, b: nat)
    requires |s| == 2 && a == s[0] && b == s[1]
    ensures BigEndian(s) == 256 * a + b
  {
    assert s[..1] == [s[0]] && [s[0]][..0] == [];
    assert BigEndian([s[0]]) == a;
  }

  lemma ZerosFirst(s: seq<byte>)
    requires |s| >= 1 && s[0] == 0
    ensures BigEndian(s) == BigEndian(s[1..])
  {
    if |s| > 1 {
      ZerosFirst(s[..|s| - 1]);
      assert s[..|s| - 1][1..] == s[1..][..|s| - 2];
    }
  }

  lemma ThreeBytes(s: seq<byte>, a: nat, b: nat, c: nat)
    requires |s| == 3 && a == s[0] && b == s[1] && c == s[2]
    ensures BigEndian(s) == 65536 * a + 256 * b + c
  {
    TwoBytes(s[..2], a, b);
  }

  lemma EightBytes(s: seq<byte>, a: nat, b: nat, c: nat)
    requires |s| == 8 && s[0] == 0 && s[1] == 0 && s[2] == 0 && s[3] == 0 && s[4] == 0
    requires a == s[5] && b == s[6] && c == s[7]
    ensures BigEndian(s) == 65536 * a + 256 * b + c
  {
    ZerosFirst(s);
    ZerosFirst(s[1..]);
    ZerosFirst(s[2..]);
    ZerosFirst(s[3..]);
    ZerosFirst(s[4..]);
    assert s[1..][1..] == s[2..] && s[2..][1..] == s[3..] && s[3..][1..] == s[4..] && s[4..][1..] == s[5..];
    ThreeBytes(s[5..], a, b, c);
  }

  /** The length is read back, whatever of the header follows it. */
  lemma LengthBytesRead(h0: byte, n: nat, mask: bool, h: seq<byte>)
    requires n <= 0xFF_FFFF && [h0] + LengthBytes(n, mask) <= h
    ensures Masked(h[1]) == mask && LengthEnd(h[1]) == 1 + |LengthBytes(n, mask)|
    ensures ShortLen(h[1]) <= 125 <==> n <= 125
    ensures PayloadLen(h) == n
  {
    var l := LengthBytes(n, mask);
    assert h[1] == l[0];
    if 125 < n <= 0xFFFF {
      assert h[2] == l[1] && h[3] == l[2];
      TwoBytes(h[2..4], n / 256, n % 256);
    } else if n > 0xFFFF {
      LongLength(n, l, h[2..10]);
    }
  }

  lemma LongLength(n: nat, l: seq<byte>, field: seq<byte>)
    requires 0xFFFF < n <= 0xFF_FFFF && |l| == 9 && field == l[1..]
    requires l[1..] == [0, 0, 0, 0, 0, n / 65536, n / 256 % 256, n % 256]
    ensures BigEndian(field) == n
  {
    EightBytes(field, n / 65536, n / 256 % 256, n % 256);
  }

  /** The header of a peer's frame is read as what it says. */
  lemma HeaderReads(f: Flags, n: nat, key: Option<seq<byte>>)
    requires FlagsOk(f) && n <= 0xFF_FFFF && KeyOk(key)
    ensures var h := HeaderOf(f, n, key);
      && |h| == HeaderLen(h[1]) && h[0] == FirstByte(f) && PayloadLen(h) == n && Masked(h[1]) == key.Some?
      && (ShortLen(h[1]) <= 125 <==> n <= 125) && (key.Some? ==> h[LengthEnd(h[1])..] == key.value)
  {
    LengthBytesRead(FirstByte(f), n, key.Some?, HeaderOf(f, n, key));
  }

  lemma HeaderVerdict(a: Assembly, compression: bool, f: Flags, n: nat, h0: byte, h1: byte)
    requires FlagsOk(f) && h0 == FirstByte(f) && (ShortLen(h1) <= 125 <==> n <= 125)
    ensures Allowed(a, compression, f, n) ==> HeaderError(a, compression, h0, h1) == None
    ensures HeaderError(a, compression, h0, h1) == None && LengthAllowed(a, f.opcode, n) ==>
      Allowed(a, compression, f, n)
  {
    FirstByteReads(f);
  }

  /** A peer's frame is taken, as what it says and with nothing behind it touched, exactly when it is allowed. */
  lemma PeerFrameReads(a: Assembly, compression: bool, f: Flags, payload: seq<byte>, key: Option<seq<byte>>,
                       rest: seq<byte>)
    requires FlagsOk(f) && |payload| <= 0xFF_FFFF && KeyOk(key)
    ensures
      var parse := ParseFrame(a, compression, PeerFrame(f, payload, key) + rest);
      if Allowed(a, compression, f, |payload|) then parse == FrameAt(Frame(f.fin, f.opcode, f.rsv1, payload), rest)
      else parse.BadFrame?
  {
    var h := HeaderOf(f, |payload|, key);
    var body := if key.Some? then Mask(payload, key.value) else payload;
    HeaderReads(f, |payload|, key);
    FirstByteReads(f);
    HeaderVerdict(a, compression, f, |payload|, h[0], h[1]);
    if Allowed(a, compression, f, |payload|) {
      ParseComplete(a, compression, h, body, rest);
      if key.Some? { MaskTwice(payload, key.value); }
    } else {
      Refused(a, compression, h, body, rest);
    }
  }

  lemma Refused(a: Assembly, compression: bool, h: seq<byte>, body: seq<byte>, rest: seq<byte>)
    requires |h| >= 2 && |h| == HeaderLen(h[1])
    requires HeaderError(a, compression, h[0], h[1]) == None ==> !LengthAllowed(a, Opcode(h[0]), PayloadLen(h))
    ensures ParseFrame(a, compression, h + body + rest).BadFrame?
  {
    Assoc(h, body, rest);
    if HeaderError(a, compression, h[0], h[1]) == None {
      ParseAfterHeader(a, compression, h, body + rest);
    }
  }

  lemma {:induction false} XorBits(x: nat, y: nat, n: nat, j: nat)
    requires j < n
    ensures Lsb(Xor(x, y), n)[j] == (Lsb(x, n)[j] != Lsb(y, n)[j])
  {
    XorParity(x, y);
    if j > 0 { XorBits(x / 2, y / 2, n - 1, j - 1); }
  }

  /** A masked bit is turned over exactly where the key has a one, the four key bytes taken in turn. */
  lemma MaskedBit(data: seq<byte>, key: seq<byte>, i: nat, j: nat)
    requires |key| == 4 && i < |data| && j < 8
    ensures |Mask(data, key)| == |data|
    ensures Lsb(Mask(data, key)[i], 8)[j] == (Lsb(data[i], 8)[j] != Lsb(key[i % 4], 8)[j])
  {
    var n := 8;
    XorBits(data[i], key[i % 4], n, j);
  }

  // ---- Messages in fragments ----

  /** What follows the first frame of a message: continuations, and controls between them. */
  datatype Fragments =
    | LastPart(data: seq<byte>, key: Option<seq<byte>>)
    | Part(data: seq<byte>, key: Option<seq<byte>>, next: Fragments)
    | Aside(ping: bool, data: seq<byte>, key: Option<seq<byte>>, next: Fragments)

  predicate FragmentsOk(f: Fragments)
  {
    KeyOk(f.key) && (f.Aside? ==> |f.data| <= 125) && (!f.LastPart? ==> FragmentsOk(f.next))
  }

  /** The data of the continuations, end to end. */
  function Parts(f: Fragments): seq<byte>
  {
    match f
    case LastPart(data, _) => data
    case Part(data, _, next) => data + Parts(next)
    case Aside(_, _, _, next) => Parts(next)
  }

  function Control(ping: bool, data: seq<byte>): Message
  {
    if ping then Ping(data) else Pong(data)
  }

  function Asides(f: Fragments): seq<Message>
  {
    match f
    case LastPart(_, _) => []
    case Part(_, _, next) => Asides(next)
    case Aside(ping, data, _, next) => [Control(ping, data)] + Asides(next)
  }

  /** Continuations have opcode 0, pings 9 and pongs 10; the last continuation and the controls are final. */
  function FragmentFlags(f: Fragments): Flags
  {
    match f
    case LastPart(_, _) => Flags(true, false, 0, 0)
    case Part(_, _, _) => Flags(false, false, 0, 0)
    case Aside(ping, _, _, _) => Flags(true, false, 0, if ping then 9 else 10)
  }

  function FragmentsBytes(f: Fragments): seq<byte>
    requires FragmentsOk(f) && |Parts(f)| <= 1048576
  {
    PeerFrame(FragmentFlags(f), f.data, f.key) + if f.LastPart? then [] else FragmentsBytes(f.next)
  }

  /** What a byte string brings: its messages, and how it ends. */
  datatype Brings = Brings(messages: seq<Message>, end: Outcome)

  ghost function BringsOf(a: Assembly, compression: bool, s: seq<byte>): Brings
  {
    Brings(AllMessages(a, compression, s), Ending(a, compression, s))
  }

  /** First these messages, then the rest. */
  function First(messages: seq<Message>, b: Brings): Brings
  {
    Brings(messages + b.messages, b.end)
  }

  /** What a complete message comes out as: its bytes, or what they inflate to. */
  ghost function Whole(opcode: nat, compressed: bool, data: seq<byte>): Option<Message>
  {
    if !compressed then Some(if opcode == 1 then Text(data) else Binary(data))
    else
      match Decoded(data)
      case None => None
      case Some(d) => Some(if opcode == 1 then Text(d) else Binary(d))
  }

  /** After a complete message: the message and what the rest brings, or a lasting error. */
  ghost function Concluded(message: Option<Message>, after: Brings): Brings
  {
    match message
    case Some(m) => First([m], after)
    case None => Brings([], Broken(BadPayload))
  }

  lemma NextAfter(a: Assembly, compression: bool, s: seq<byte>, f: Frame, rest: seq<byte>)
    requires ParseFrame(a, compression, s) == FrameAt(f, rest)
    ensures NextMessage(a, compression, s) == AfterStep(OnFrame(a, f), compression, s, rest)
  {
  }

  /** The same next message, the same everything. */
  lemma SameBrings(a: Assembly, s: seq<byte>, a': Assembly, s': seq<byte>, compression: bool)
    requires NextMessage(a, compression, s) == NextMessage(a', compression, s')
    ensures BringsOf(a, compression, s) == BringsOf(a', compression, s')
  {
  }

  lemma MoreBrings(a: Assembly, compression: bool, s: seq<byte>, f: Frame, rest: seq<byte>, a': Assembly)
    requires ParseFrame(a, compression, s) == FrameAt(f, rest) && OnFrame(a, f) == More(a')
    ensures BringsOf(a, compression, s) == BringsOf(a', compression, rest)
  {
    NextAfter(a, compression, s, f, rest);
    SameBrings(a, s, a', rest, compression);
  }

  lemma EmitBrings(a: Assembly, compression: bool, s: seq<byte>, f: Frame, rest: seq<byte>, m: Message, a': Assembly)
    requires ParseFrame(a, compression, s) == FrameAt(f, rest) && OnFrame(a, f) == Emit(m, a')
    ensures BringsOf(a, compression, s) == First([m], BringsOf(a', compression, rest))
  {
    NextAfter(a, compression, s, f, rest);
  }

  lemma RejectBrings(a: Assembly, compression: bool, s: seq<byte>, f: Frame, rest: seq<byte>, e: Reason)
    requires ParseFrame(a, compression, s) == FrameAt(f, rest) && OnFrame(a, f) == Reject(e)
    ensures BringsOf(a, compression, s) == Brings([], Broken(e))
  {
    NextAfter(a, compression, s, f, rest);
  }

  /** The final frame of a message: what has been put together comes out, or the error does. */
  lemma EndBrings(a: Assembly, compression: bool, s: seq<byte>, f: Frame, rest: seq<byte>, whole: Assembly)
    requires ParseFrame(a, compression, s) == FrameAt(f, rest) && f.fin && f.opcode <= 2
    requires whole == Extended(a, f) && 1 <= whole.opcode <= 2
    ensures BringsOf(a, compression, s) ==
      Concluded(Whole(whole.opcode, whole.compressed, whole.message), BringsOf(NO_MESSAGE, compression, rest))
  {
    match Whole(whole.opcode, whole.compressed, whole.message)
    case Some(m) => EmitBrings(a, compression, s, f, rest, m, NO_MESSAGE);
    case None => RejectBrings(a, compression, s, f, rest, BadPayload);
  }

  /** One more frame read: a control, or a continuation. */
  lemma FragmentReads(a: Assembly, compression: bool, f: Fragments, rest: seq<byte>)
    requires a.opcode in {1, 2} && FragmentsOk(f) && |a.message| + |Parts(f)| <= 1048576
    ensures
      var flags := FragmentFlags(f);
      |f.data| <= 0xFF_FFFF && ParseFrame(a, compression, PeerFrame(flags, f.data, f.key) + rest) ==
        FrameAt(Frame(flags.fin, flags.opcode, false, f.data), rest)
  {
    PeerFrameReads(a, compression, FragmentFlags(f), f.data, f.key, rest);
  }

  lemma FirstTwice(m: seq<Message>, n: seq<Message>, b: Brings)
    ensures First(m, First(n, b)) == First(m + n, b)
  {
    Assoc(m, n, b.messages);
  }

  /** What the whole message comes to once `data` is behind what is in flight. */
  ghost function Completes(a: Assembly, compression: bool, data: seq<byte>, rest: seq<byte>): Brings
  {
    Concluded(Whole(a.opcode, a.compressed, a.message + data), BringsOf(NO_MESSAGE, compression, rest))
  }

  lemma LastPartBrings(a: Assembly, compression: bool, f: Fragments, rest: seq<byte>)
    requires a.opcode in {1, 2} && FragmentsOk(f) && |a.message| + |Parts(f)| <= 1048576 && f.LastPart?
    ensures BringsOf(a, compression, FragmentsBytes(f) + rest) == Completes(a, compression, f.data, rest)
  {
    var s := PeerFrame(FragmentFlags(f), f.data, f.key) + rest;
    assert FragmentsBytes(f) == PeerFrame(FragmentFlags(f), f.data, f.key);
    FragmentReads(a, compression, f, rest);
    EndBrings(a, compression, s, Frame(true, 0, false, f.data), rest, a.(message := a.message + f.data));
  }

  lemma PartBrings(a: Assembly, compression: bool, f: Fragments, tail: seq<byte>)
    requires a.opcode in {1, 2} && FragmentsOk(f) && |a.message| + |Parts(f)| <= 1048576 && f.Part?
    ensures |f.data| <= 0xFF_FFFF
    ensures BringsOf(a, compression, PeerFrame(FragmentFlags(f), f.data, f.key) + tail) ==
            BringsOf(a.(message := a.message + f.data), compression, tail)
  {
    var s := PeerFrame(FragmentFlags(f), f.data, f.key) + tail;
    FragmentReads(a, compression, f, tail);
    MoreBrings(a, compression, s, Frame(false, 0, false, f.data), tail, a.(message := a.message + f.data));
  }

  lemma AsideBrings(a: Assembly, compression: bool, f: Fragments, tail: seq<byte>)
    requires a.opcode in {1, 2} && FragmentsOk(f) && |a.message| + |Parts(f)| <= 1048576 && f.Aside?
    ensures |f.data| <= 0xFF_FFFF
    ensures BringsOf(a, compression, PeerFrame(FragmentFlags(f), f.data, f.key) + tail) ==
            First([Control(f.ping, f.data)], BringsOf(a, compression, tail))
  {
    var s := PeerFrame(FragmentFlags(f), f.data, f.key) + tail;
    FragmentReads(a, compression, f, tail);
    var frame := Frame(true, FragmentFlags(f).opcode, false, f.data);
    EmitBrings(a, compression, s, frame, tail, Control(f.ping, f.data), a);
  }

  lemma Unfold(f: Fragments, rest: seq<byte>)
    requires FragmentsOk(f) && |Parts(f)| <= 1048576 && !f.LastPart?
    ensures FragmentsBytes(f) + rest == PeerFrame(FragmentFlags(f), f.data, f.key) + (FragmentsBytes(f.next) + rest)
  {
    Assoc(PeerFrame(FragmentFlags(f), f.data, f.key), FragmentsBytes(f.next), rest);
  }

  /** The rest of a message in flight: its controls in order, then the message with all its parts. */
  lemma {:induction false} FragmentsBring(a: Assembly, compression: bool, f: Fragments, rest: seq<byte>)
    requires a.opcode in {1, 2} && FragmentsOk(f) && |a.message| + |Parts(f)| <= 1048576
    ensures BringsOf(a, compression, FragmentsBytes(f) + rest) ==
            First(Asides(f), Completes(a, compression, Parts(f), rest))
    decreases f
  {
    match f
    case LastPart(_, _) =>
      LastPartBrings(a, compression, f, rest);
      var b := Completes(a, compression, Parts(f), rest);
      assert [] + b.messages == b.messages;
    case Part(data, _, next) =>
      Unfold(f, rest);
      PartBrings(a, compression, f, FragmentsBytes(next) + rest);
      Assoc(a.message, data, Parts(next));
      FragmentsBring(a.(message := a.message + data), compression, next, rest);
    case Aside(ping, data, _, next) =>
      Unfold(f, rest);
      AsideBrings(a, compression, f, FragmentsBytes(next) + rest);
      FragmentsBring(a, compression, next, rest);
      FirstTwice([Control(ping, data)], Asides(next), Completes(a, compression, Parts(next), rest));
  }

  lemma FirstFrameBrings(compression: bool, opcode: nat, compressed: bool, first: seq<byte>, key: Option<seq<byte>>,
                         tail: seq<byte>)
    requires opcode in {1, 2} && (compressed ==> compression) && KeyOk(key) && |first| <= 1048576
    ensures BringsOf(NO_MESSAGE, compression, PeerFrame(Flags(false, compressed, 0, opcode), first, key) + tail) ==
            BringsOf(Assembly(opcode, compressed, first), compression, tail)
  {
    var flags := Flags(false, compressed, 0, opcode);
    PeerFrameReads(NO_MESSAGE, compression, flags, first, key, tail);
    var s := PeerFrame(flags, first, key) + tail;
    MoreBrings(NO_MESSAGE, compression, s, Frame(false, opcode, compressed, first), tail,
               Assembly(opcode, compressed, first));
  }

  /**
    A text or binary message cut into any fragments, masked or not, with any pings and pongs
    between them: the controls come out in order, then the message with all its parts in order, or
    what they inflate to when the first frame says so; then what follows.
   */
  lemma FragmentedMessage(compression: bool, opcode: nat, compressed: bool, first: seq<byte>, key: Option<seq<byte>>,
                          f: Fragments, rest: seq<byte>)
    requires opcode in {1, 2} && (compressed ==> compression) && KeyOk(key) && FragmentsOk(f)
    requires |first| + |Parts(f)| <= 1048576
    ensures
      var wire := PeerFrame(Flags(false, compressed, 0, opcode), first, key) + FragmentsBytes(f);
      BringsOf(NO_MESSAGE, compression, wire + rest) ==
        First(Asides(f),
              Concluded(Whole(opcode, compressed, first + Parts(f)), BringsOf(NO_MESSAGE, compression, rest)))
  {
    Assoc(PeerFrame(Flags(false, compressed, 0, opcode), first, key), FragmentsBytes(f), rest);
    FirstFrameBrings(compression, opcode, compressed, first, key, FragmentsBytes(f) + rest);
    FragmentsBring(Assembly(opcode, compressed, first), compression, f, rest);
  }

  /** A message in one frame. */
  lemma SingleFrame(compression: bool, opcode: nat, compressed: bool, data: seq<byte>, key: Option<seq<byte>>,
                    rest: seq<byte>)
    requires opcode in {1, 2} && (compressed ==> compression) && KeyOk(key) && |data| <= 1048576
    ensures BringsOf(NO_MESSAGE, compression, PeerFrame(Flags(true, compressed, 0, opcode), data, key) + rest) ==
            Concluded(Whole(opcode, compressed, data), BringsOf(NO_MESSAGE, compression, rest))
  {
    var flags := Flags(true, compressed, 0, opcode);
    PeerFrameReads(NO_MESSAGE, compression, flags, data, key, rest);
    EndBrings(NO_MESSAGE, compression, PeerFrame(flags, data, key) + rest, Frame(true, opcode, compressed, data), rest,
              Assembly(opcode, compressed, data));
  }

  /** A close frame comes out as such in the middle of any message, which is then dropped. */
  lemma CloseFrame(a: Assembly, compression: bool, data: seq<byte>, key: Option<seq<byte>>, rest: seq<byte>)
    requires KeyOk(key) && |data| <= 125
    ensures BringsOf(a, compression, PeerFrame(Flags(true, false, 0, 8), data, key) + rest) ==
            First([Close], BringsOf(NO_MESSAGE, compression, rest))
  {
    var flags := Flags(true, false, 0, 8);
    PeerFrameReads(a, compression, flags, data, key, rest);
    var s := PeerFrame(flags, data, key) + rest;
    EmitBrings(a, compression, s, Frame(true, 8, false, data), rest, Close, NO_MESSAGE);
  }

  /** A peer's compressed message, flushed and cut into any fragments, comes out as the bytes compressed. */
  lemma CompressedInFragments(run: seq<Point>, junk: seq<bool>, marker: seq<byte>, d: seq<byte>, opcode: nat,
                              first: seq<byte>, key: Option<seq<byte>>, f: Fragments, rest: seq<byte>)
    requires opcode in {1, 2} && KeyOk(key) && FragmentsOk(f) && |first| + |Parts(f)| <= 1048576
    requires marker == [0x00, 0x00, 0xFF, 0xFF] && FlushedRun(run, junk, first + Parts(f), marker, d) && |d| <= 1048576
    ensures
      var wire := PeerFrame(Flags(false, true, 0, opcode), first, key) + FragmentsBytes(f);
      BringsOf(NO_MESSAGE, true, wire + rest) ==
        First(Asides(f), First([if opcode == 1 then Text(d) else Binary(d)], BringsOf(NO_MESSAGE, true, rest)))
  {
    FragmentedMessage(true, opcode, true, first, key, f, rest);
    FlushedMessageDecodes(run, junk, first + Parts(f), marker, d);
  }
}
