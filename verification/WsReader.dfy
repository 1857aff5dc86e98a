/**
  The resumable frame reader, over a transport that may cut the byte stream anywhere and
  interrupt or time out at any read, proved to compute the parser of complete strings.
 */
module WsReader {
  import opened Bits
  import opened WsFrames
  import opened Permessage
  import opened Inflate

  // ---- The transport ----

  /** What the next read of the transport will meet. A closed or broken transport stays so. */
  datatype Event = Data(first: byte, more: seq<byte>) | Interrupted | WouldBlock | Eof | Fault

  datatype IoResult = Count(n: nat) | IoInterrupted | IoWouldBlock | IoFault

  /** The bytes the transport will still deliver. */
  function Bytes(script: seq<Event>): seq<byte>
  {
    if script == [] then []
    else
      match script[0]
      case Data(b, more) => [b] + more + Bytes(script[1..])
      case Interrupted => Bytes(script[1..])
      case WouldBlock => Bytes(script[1..])
      case Eof => []
      case Fault => []
  }

  predicate AtEof(script: seq<Event>)
  {
    script != [] && script[0].Eof?
  }

  predicate AtFault(script: seq<Event>)
  {
    script != [] && script[0].Fault?
  }

  class Stream {
    var script: seq<Event>

    constructor (script: seq<Event>)
      ensures this.script == script
    {
      this.script := script;
    }

    /** Read at least one and at most `to - from` bytes into the buffer, or report why not. */
    method Read(buf: array<byte>, from: nat, to: nat) returns (r: IoResult)
      requires from < to <= buf.Length
      modifies this, buf
      ensures |script| <= |old(script)|
      ensures buf[..from] == old(buf[..from])
      ensures match r
        case Count(n) =>
          && from + n <= to
          && Bytes(old(script)) == buf[from..from + n] + Bytes(script)
          && (n == 0 ==> AtEof(old(script)) && script == old(script))
        case IoInterrupted => Bytes(script) == Bytes(old(script)) && |script| < |old(script)|
        case IoWouldBlock =>
          Bytes(script) == Bytes(old(script)) && (|script| < |old(script)| || old(script) == [])
        case IoFault => AtFault(script) && script == old(script)
    {
      if script == [] {
        return IoWouldBlock;
      }
      match script[0]
      case Data(b, more) =>
        var all := [b] + more;
        var n := if |all| < to - from then |all| else to - from;
        forall i | 0 <= i < n {
          buf[from + i] := all[i];
        }
        assert buf[from..from + n] == all[..n];
        assert all == all[..n] + all[n..];
        ghost var was := script;
        if n < |all| {
          script := [Data(all[n], all[n + 1..])] + script[1..];
          assert all[n..] == [all[n]] + all[n + 1..];
          assert script[1..] == was[1..];
        } else {
          script := script[1..];
        }
        r := Count(n);
      case Interrupted =>
        script := script[1..];
        r := IoInterrupted;
      case WouldBlock =>
        script := script[1..];
        r := IoWouldBlock;
      case Eof =>
        r := Count(0);
      case Fault =>
        r := IoFault;
    }
  }

  datatype Fill = Filled | HitEof | TimedOut | Faulted

  /** Fill a persistent part of a frame from `filled` up to `end`, keeping progress on timeout. */
  method FillFramePart(stream: Stream, buf: array<byte>, filled: nat, end: nat) returns (r: Fill, filled': nat)
    requires filled <= buf.Length && end <= buf.Length
    modifies stream, buf
    ensures |stream.script| <= |old(stream.script)|
    ensures filled <= filled' <= buf.Length && (filled' <= end || filled' == filled)
    ensures buf[..filled] == old(buf[..filled])
    ensures filled >= end ==> r == Filled && filled' == filled && stream.script == old(stream.script)
    ensures buf[..filled'] + Bytes(stream.script) == old(buf[..filled] + Bytes(stream.script))
    ensures match r
      case Filled => filled' >= end
      case HitEof => filled' < end && AtEof(stream.script)
      case TimedOut => filled' < end && (|stream.script| < |old(stream.script)| || |old(stream.script)| == 0)
      case Faulted => filled' < end && AtFault(stream.script)
  {
    filled' := filled;
    ghost var all := buf[..filled] + Bytes(stream.script);
    while filled' < end
      invariant filled <= filled' <= buf.Length && (filled' <= end || filled' == filled)
      invariant |stream.script| <= |old(stream.script)|
      invariant filled >= end ==> filled' == filled && stream.script == old(stream.script)
      invariant buf[..filled] == old(buf[..filled])
      invariant buf[..filled'] + Bytes(stream.script) == all
      decreases end - filled', |stream.script|
    {
      ghost var before, bytes := buf[..filled'], Bytes(stream.script);
      var res := stream.Read(buf, filled', end);
      match res
      case Count(n) =>
        if n == 0 {
          return HitEof, filled';
        }
        assert buf[..filled' + n] == before + buf[filled'..filled' + n];
        assert buf[..filled] == before[..filled];
        filled' := filled' + n;
      case IoInterrupted =>
        assert buf[..filled] == before[..filled];
      case IoWouldBlock =>
        assert buf[..filled] == before[..filled];
        return TimedOut, filled';
      case IoFault =>
        assert buf[..filled] == before[..filled];
        return Faulted, filled';
    }
    r := Filled;
  }

  // ---- The reader ----

  datatype ReadErr = ReadTimedOut | Truncated | Incomplete | IoBroken | Protocol(reason: Reason)

  datatype ReadResult<+T> = Value(v: T) | Closed | Error(e: ReadErr)

  /** A lasting error is the one that parsing all the bytes there are calls for. */
  ghost predicate FrameError(e: ReadErr, parse: FrameParse, script: seq<Event>)
  {
    match e
    case Truncated => parse == NeedMore && AtEof(script)
    case Protocol(x) => x != FailedReader && parse == BadFrame(x)
    case IoBroken => parse == NeedMore && AtFault(script)
    case ReadTimedOut => false
    case Incomplete => false
  }

  class FrameReader {
    const header: array<byte>
    var headerRead: nat
    var payload: array<byte>
    var payloadRead: nat
    var message: seq<byte>
    var messageOpcode: nat
    var messageCompressed: bool
    var failed: bool

    /** The data message in flight. */
    function Assembled(): Assembly
      reads this
    {
      Assembly(messageOpcode, messageCompressed, message)
    }

    /** What has been read of the frame in progress. */
    ghost function Buffered(): seq<byte>
      requires headerRead <= header.Length && payloadRead <= payload.Length
      reads this, header, payload
    {
      header[..headerRead] + payload[..payloadRead]
    }

    /** The payload buffer exists only once the header is complete, at the length it announces. */
    ghost predicate PayloadSound()
      requires headerRead <= header.Length
      reads this, header
    {
      payload.Length > 0 ==>
        && 2 <= headerRead == HeaderLen(header[1])
        && payload.Length == PayloadLen(header[..headerRead])
        && LengthAllowed(Assembled(), Opcode(header[0]), payload.Length)
    }

    ghost predicate Valid()
      reads this, header, payload
    {
      && header.Length == 14 && header != payload
      && |message| <= MAX_FRAME_SIZE && payload.Length <= MAX_FRAME_SIZE
      && (!failed ==>
            && headerRead <= 14 && payloadRead <= payload.Length
            && (headerRead > 2 ==> headerRead <= HeaderLen(header[1]))
            && PayloadSound()
            && messageOpcode <= 2
            && (messageOpcode == 0 ==> Assembled() == NO_MESSAGE))
    }

    /**
      Reading stopped on `e`: a timeout lost nothing of the bytes `s` and used up an event of
      the `was` there were; any other error is lasting and the one that `parse` calls for.
     */
    ghost predicate Stopped(e: ReadErr, parse: FrameParse, s: seq<byte>, stream: Stream, was: nat)
      requires Valid()
      reads this, header, payload, stream
    {
      if e == ReadTimedOut then
        !failed && Buffered() + Bytes(stream.script) == s && (|stream.script| < was || was == 0)
      else failed && FrameError(e, parse, stream.script) && (e == Truncated ==> s != [])
    }

    /** Reading stopped within the first `end` bytes of a frame. */
    ghost predicate Cut(e: ReadErr, s: seq<byte>, end: nat, stream: Stream, was: nat)
      requires Valid()
      reads this, header, payload, stream
    {
      match e
      case ReadTimedOut => Stopped(e, NeedMore, s, stream, was)
      case Truncated => failed && 0 < |s| < end && AtEof(stream.script)
      case IoBroken => failed && |s| < end && AtFault(stream.script)
      case Incomplete => false
      case Protocol(_) => false
    }

    constructor ()
      ensures Valid() && !failed && Assembled() == NO_MESSAGE && Buffered() == [] && fresh(header) && fresh(payload)
    {
      header := new byte[14](_ => 0);
      headerRead := 0;
      payload := new byte[0];
      payloadRead := 0;
      message := [];
      messageOpcode := 0;
      messageCompressed := false;
      failed := false;
    }

    /** Fill the header up to `end`, which is no less than what a payload in progress implies. */
    method FillHeader(stream: Stream, end: nat) returns (fill: Fill)
      requires Valid() && !failed && end <= 14 && (headerRead < end ==> payload.Length == 0)
      requires end == 2 || (headerRead >= 2 && end == HeaderLen(header[1]))
      modifies this`headerRead, header, stream
      ensures Valid() && |stream.script| <= |old(stream.script)|
      ensures old(headerRead) <= headerRead && header[..old(headerRead)] == old(header[..headerRead])
      ensures headerRead <= end || headerRead == old(headerRead)
      ensures Buffered() + Bytes(stream.script) == old(Buffered() + Bytes(stream.script))
      ensures match fill
        case Filled => headerRead >= end
        case HitEof => headerRead < end && AtEof(stream.script)
        case TimedOut => headerRead < end && (|stream.script| < |old(stream.script)| || |old(stream.script)| == 0)
        case Faulted => headerRead < end && AtFault(stream.script)
    {
      ghost var before, was := header[..headerRead], Buffered();
      assert payload.Length == 0 ==> was == before;
      var n;
      fill, n := FillFramePart(stream, header, headerRead, end);
      assert header[..headerRead] == before;
      if headerRead >= 2 { assert header[1] == before[1] && header[0] == before[0]; }
      headerRead := n;
      assert payload.Length == 0 ==> Buffered() == header[..headerRead];
    }

    /** Read the first two bytes. */
    method ReadStart(stream: Stream) returns (r: ReadResult<()>)
      requires Valid() && !failed
      modifies this`headerRead, this`failed, header, stream
      ensures Valid() && |stream.script| <= |old(stream.script)|
      ensures var s := old(Buffered()) + Bytes(old(stream.script));
        match r
        case Value(_) => !failed && headerRead >= 2 && Buffered() + Bytes(stream.script) == s
        case Closed => !failed && s == [] && Buffered() == [] && AtEof(stream.script)
        case Error(e) => Cut(e, s, 2, stream, |old(stream.script)|)
      ensures r == Error(ReadTimedOut) ==> |Buffered()| < 2
    {
      var fill := FillHeader(stream, 2);
      match fill {
        case TimedOut => return Error(ReadTimedOut);
        case Faulted => failed := true; return Error(IoBroken);
        case HitEof =>
          if headerRead == 0 {
            return Closed;
          }
          failed := true;
          return Error(Truncated);
        case Filled =>
      }
      r := Value(());
    }

    /** Read the rest of the header. */
    method ReadHeader(stream: Stream) returns (r: ReadResult<()>)
      requires Valid() && !failed && headerRead >= 2
      modifies this`headerRead, this`failed, header, stream
      ensures Valid() && |stream.script| <= |old(stream.script)|
      ensures header[0] == old(header[0]) && header[1] == old(header[1])
      ensures var s := old(Buffered()) + Bytes(old(stream.script));
        match r
        case Value(_) => !failed && headerRead == HeaderLen(header[1]) && Buffered() + Bytes(stream.script) == s
        case Closed => false
        case Error(e) => Cut(e, s, HeaderLen(header[1]), stream, |old(stream.script)|)
      ensures r == Error(ReadTimedOut) ==>
        2 <= |Buffered()| < HeaderLen(header[1]) && Buffered()[0] == header[0] && Buffered()[1] == header[1]
    {
      ghost var s, h0, h1 := Buffered() + Bytes(stream.script), header[0], header[1];
      var fill := FillHeader(stream, HeaderLen(header[1]));
      assert header[..headerRead][0] == h0 && header[..headerRead][1] == h1;
      match fill {
        case TimedOut => return Error(ReadTimedOut);
        case Faulted => failed := true; return Error(IoBroken);
        case HitEof => failed := true; return Error(Truncated);
        case Filled =>
      }
      r := Value(());
    }

    /** Fill the payload buffer, sizing it on the first visit; a retry finds it sized already. */
    method FillPayload(stream: Stream, n: nat) returns (fill: Fill)
      requires Valid() && !failed && 2 <= headerRead == HeaderLen(header[1])
      requires n == PayloadLen(header[..headerRead]) && LengthAllowed(Assembled(), Opcode(header[0]), n)
      modifies this`payload, this`payloadRead, payload, stream
      ensures Valid() && |stream.script| <= |old(stream.script)|
      ensures payload.Length == n && (payload == old(payload) || fresh(payload))
      ensures header[..headerRead] == old(header[..headerRead])
      ensures payload[..payloadRead] + Bytes(stream.script) == old(payload[..payloadRead] + Bytes(stream.script))
      ensures match fill
        case Filled => payloadRead == n
        case HitEof => payloadRead < n && AtEof(stream.script)
        case TimedOut => payloadRead < n && (|stream.script| < |old(stream.script)| || |old(stream.script)| == 0)
        case Faulted => payloadRead < n && AtFault(stream.script)
    {
      ghost var head := header[..headerRead];
      if payload.Length < n {
        payload := new byte[n](_ => 0);
      }
      var filled;
      fill, filled := FillFramePart(stream, payload, payloadRead, n);
      payloadRead := filled;
      assert header[..headerRead] == head;
    }

    /** Read the payload behind a complete header and hand over the frame. */
    method ReadPayload(stream: Stream) returns (r: ReadResult<Frame>)
      requires Valid() && !failed && 2 <= headerRead == HeaderLen(header[1])
      modifies this`headerRead, this`payload, this`payloadRead, this`failed, payload, stream
      ensures Valid() && |stream.script| <= |old(stream.script)|
      ensures payload == old(payload) || fresh(payload)
      ensures
        var body := old(payload[..payloadRead]) + Bytes(old(stream.script));
        var parse := ParseBody(Assembled(), old(header[..headerRead]), body);
        match r
        case Value(f) => !failed && Buffered() == [] && parse == FrameAt(f, Bytes(stream.script))
        case Closed => false
        case Error(e) => Stopped(e, parse, old(header[..headerRead]) + body, stream, |old(stream.script)|)
      ensures r == Error(ReadTimedOut) ==>
        && headerRead == old(headerRead)
        && ParseBody(Assembled(), header[..headerRead], payload[..payloadRead]) == NeedMore
    {
      ghost var body := payload[..payloadRead] + Bytes(stream.script);
      var n := PayloadLen(header[..headerRead]);
      if !LengthAllowed(Assembled(), Opcode(header[0]), n) {
        failed := true;
        return Error(Protocol(TooLarge));
      }
      var fill := FillPayload(stream, n);
      match fill {
        case TimedOut => return Error(ReadTimedOut);
        case Faulted => failed := true; return Error(IoBroken);
        case HitEof => failed := true; return Error(Truncated);
        case Filled =>
      }
      assert payload[..payloadRead] == payload[..] == body[..n];
      assert Bytes(stream.script) == body[n..];
      var f := TakeFrame();
      r := Value(f);
    }

    /** Unmask the complete payload and start the next frame. */
    method TakeFrame() returns (f: Frame)
      requires Valid() && !failed && 2 <= headerRead == HeaderLen(header[1])
      modifies this`headerRead, this`payload, this`payloadRead, payload
      ensures Valid() && Buffered() == [] && fresh(payload)
      ensures f == Frame(Fin(header[0]), Opcode(header[0]), Rsv1(header[0]),
                         FramePayload(old(header[..headerRead]), old(payload[..])))
    {
      var lengthEnd := LengthEnd(header[1]);
      if Masked(header[1]) {
        ApplyMask(payload, payload.Length, header[lengthEnd..headerRead]);
        assert header[..headerRead][lengthEnd..] == header[lengthEnd..headerRead];
        assert payload[..payload.Length] == payload[..];
      }
      f := Frame(Fin(header[0]), Opcode(header[0]), Rsv1(header[0]), payload[..]);
      payload := new byte[0];
      headerRead, payloadRead := 0, 0;
    }

    /** Read up to the end of the header, checking its first two bytes on the way. */
    method ReadChecked(stream: Stream, compression: bool) returns (r: ReadResult<()>)
      requires Valid() && !failed
      modifies this`headerRead, this`failed, header, stream
      ensures Valid() && |stream.script| <= |old(stream.script)|
      ensures
        var s := old(Buffered()) + Bytes(old(stream.script));
        match r
        case Value(_) =>
          && !failed && 2 <= headerRead == HeaderLen(header[1]) && Buffered() + Bytes(stream.script) == s
          && HeaderError(Assembled(), compression, header[0], header[1]) == None
        case Closed => !failed && s == [] && Buffered() == [] && AtEof(stream.script)
        case Error(e) => Stopped(e, ParseFrame(Assembled(), compression, s), s, stream, |old(stream.script)|)
      ensures r == Error(ReadTimedOut) ==> ParseFrame(Assembled(), compression, Buffered()) == NeedMore
    {
      r := ReadStart(stream);
      if r.Value? {
        r := ReadRest(stream, compression);
      }
    }

    /** Check the first two bytes and read up to the end of the header. */
    method ReadRest(stream: Stream, compression: bool) returns (r: ReadResult<()>)
      requires Valid() && !failed && headerRead >= 2
      modifies this`headerRead, this`failed, header, stream
      ensures Valid() && |stream.script| <= |old(stream.script)|
      ensures
        var s := old(Buffered()) + Bytes(old(stream.script));
        match r
        case Value(_) =>
          && !failed && 2 <= headerRead == HeaderLen(header[1]) && Buffered() + Bytes(stream.script) == s
          && HeaderError(Assembled(), compression, header[0], header[1]) == None
        case Closed => false
        case Error(e) => Stopped(e, ParseFrame(Assembled(), compression, s), s, stream, |old(stream.script)|)
      ensures r == Error(ReadTimedOut) ==> ParseFrame(Assembled(), compression, Buffered()) == NeedMore
    {
      ghost var s := Buffered() + Bytes(stream.script);
      assert s[0] == header[0] && s[1] == header[1];
      var invalid := HeaderError(Assembled(), compression, header[0], header[1]);
      if invalid.Some? {
        failed := true;
        return Error(Protocol(invalid.value));
      }
      r := ReadHeader(stream);
    }

    /** Read one frame, keeping all offsets on timeout. */
    method ReadFrame(stream: Stream, compression: bool) returns (r: ReadResult<Frame>)
      requires Valid()
      modifies this`headerRead, this`payload, this`payloadRead, this`failed, header, payload, stream
      ensures Valid() && |stream.script| <= |old(stream.script)|
      ensures payload == old(payload) || fresh(payload)
      ensures old(failed) ==> r == Error(Protocol(FailedReader)) && failed && stream.script == old(stream.script)
      ensures !old(failed) ==>
        var s := old(Buffered()) + Bytes(old(stream.script));
        var parse := ParseFrame(Assembled(), compression, s);
        match r
        case Value(f) => !failed && Buffered() == [] && parse == FrameAt(f, Bytes(stream.script))
        case Closed => !failed && s == [] && Buffered() == [] && AtEof(stream.script)
        case Error(e) => Stopped(e, parse, s, stream, |old(stream.script)|)
      ensures r == Error(ReadTimedOut) ==> ParseFrame(Assembled(), compression, Buffered()) == NeedMore
    {
      if failed {
        return Error(Protocol(FailedReader));
      }
      var h := ReadChecked(stream, compression);
      match h {
        case Closed => return Closed;
        case Error(e) => return Error(e);
        case Value(_) =>
      }
      r := ReadBody(stream, compression);
    }

    /** Read what follows a complete, acceptable header. */
    method ReadBody(stream: Stream, compression: bool) returns (r: ReadResult<Frame>)
      requires Valid() && !failed && 2 <= headerRead == HeaderLen(header[1])
      requires HeaderError(Assembled(), compression, header[0], header[1]) == None
      modifies this`headerRead, this`payload, this`payloadRead, this`failed, payload, stream
      ensures Valid() && |stream.script| <= |old(stream.script)|
      ensures payload == old(payload) || fresh(payload)
      ensures
        var s := old(Buffered()) + Bytes(old(stream.script));
        var parse := ParseFrame(Assembled(), compression, s);
        match r
        case Value(f) => !failed && Buffered() == [] && parse == FrameAt(f, Bytes(stream.script))
        case Closed => false
        case Error(e) => Stopped(e, parse, s, stream, |old(stream.script)|)
      ensures r == Error(ReadTimedOut) ==> ParseFrame(Assembled(), compression, Buffered()) == NeedMore
    {
      ghost var head, body := header[..headerRead], payload[..payloadRead] + Bytes(stream.script);
      ParseAfterHeader(Assembled(), compression, head, body);
      Assoc(head, payload[..payloadRead], Bytes(stream.script));
      r := ReadPayload(stream);
      if r == Error(ReadTimedOut) {
        assert header[..headerRead] == head;
        ParseAfterHeader(Assembled(), compression, head, payload[..payloadRead]);
      }
    }

    /** Read the next message, reassembling fragments; controls may come between them. */
    method ReadMessage(stream: Stream, compression: bool) returns (r: ReadResult<Message>)
      requires Valid()
      modifies this, header, payload, stream
      ensures Valid() && |stream.script| <= |old(stream.script)|
      ensures payload == old(payload) || fresh(payload)
      ensures old(failed) ==> r == Error(Protocol(FailedReader)) && failed && stream.script == old(stream.script)
      ensures !old(failed) ==>
        var s := old(Buffered()) + Bytes(old(stream.script));
        && (!failed ==> |Buffered() + Bytes(stream.script)| <= |s|)
        && Delivers(r, NextMessage(old(Assembled()), compression, s), compression, stream, |old(stream.script)|)
    {
      if failed {
        return Error(Protocol(FailedReader));
      }
      ghost var goal := NextMessage(Assembled(), compression, Buffered() + Bytes(stream.script));
      while true
        invariant Valid() && !failed && |stream.script| <= |old(stream.script)|
        invariant payload == old(payload) || fresh(payload)
        invariant NextMessage(Assembled(), compression, Buffered() + Bytes(stream.script)) == goal
        invariant |Buffered() + Bytes(stream.script)| <= |old(Buffered()) + Bytes(old(stream.script))|
        decreases |Buffered() + Bytes(stream.script)|
      {
        var done := ReadStep(stream, compression);
        if done.Some? {
          return done.value;
        }
      }
    }

    /** One round of the loop: read a frame and act on it. */
    method ReadStep(stream: Stream, compression: bool) returns (r: Option<ReadResult<Message>>)
      requires Valid() && !failed
      modifies this, header, payload, stream
      ensures Valid() && |stream.script| <= |old(stream.script)|
      ensures payload == old(payload) || fresh(payload)
      ensures
        var s := old(Buffered()) + Bytes(old(stream.script));
        var goal := NextMessage(old(Assembled()), compression, s);
        match r
        case Some(res) =>
          && (!failed ==> |Buffered() + Bytes(stream.script)| <= |s|)
          && Delivers(res, goal, compression, stream, |old(stream.script)|)
        case None =>
          && !failed && |Buffered() + Bytes(stream.script)| < |s|
          && NextMessage(Assembled(), compression, Buffered() + Bytes(stream.script)) == goal
    {
      ghost var a, s := Assembled(), Buffered() + Bytes(stream.script);
      NextByFrame(a, compression, s, ParseFrame(a, compression, s));
      var read := ReadFrame(stream, compression);
      if read.Value? {
        r := ActOn(read.v, stream, compression, a, s);
      } else if read.Error? {
        r := Some(Error(read.e));
      } else if messageOpcode != 0 {
        failed := true;
        r := Some(Error(Incomplete));
      } else {
        r := Some(Closed);
      }
    }

    /** Act on the frame that the bytes `s` begin with. */
    method ActOn(f: Frame, stream: Stream, compression: bool, ghost a: Assembly, ghost s: seq<byte>)
      returns (r: Option<ReadResult<Message>>)
      requires Valid() && !failed && Buffered() == [] && a == Assembled()
      requires ParseFrame(a, compression, s) == FrameAt(f, Bytes(stream.script))
      modifies this`failed, this`message, this`messageOpcode, this`messageCompressed
      ensures Valid()
      ensures
        var goal := NextMessage(a, compression, s);
        match r
        case Some(res) =>
          && (!failed ==> |Buffered() + Bytes(stream.script)| <= |s|)
          && Delivers(res, goal, compression, stream, |stream.script|)
          && (res.Value? || (res.Error? && res.e.Protocol?))
        case None =>
          && !failed && |Buffered() + Bytes(stream.script)| < |s|
          && NextMessage(Assembled(), compression, Buffered() + Bytes(stream.script)) == goal
    {
      NextByFrame(a, compression, s, ParseFrame(a, compression, s));
      FrameFacts(a, compression, s);
      r := Absorb(f);
      if !failed { assert Buffered() + Bytes(stream.script) == Bytes(stream.script); }
    }

    /** Do what a frame asks for: deliver a message, or extend the one in flight. */
    method Absorb(f: Frame) returns (r: Option<ReadResult<Message>>)
      requires Valid() && !failed && Buffered() == []
      requires f.opcode <= 2 || IsControl(f.opcode)
      requires (f.opcode == 0 ==> messageOpcode != 0) && (1 <= f.opcode <= 2 ==> messageOpcode == 0)
      requires LengthAllowed(Assembled(), f.opcode, |f.payload|)
      modifies this`failed, this`message, this`messageOpcode, this`messageCompressed
      ensures Valid()
      ensures match OnFrame(old(Assembled()), f)
        case Emit(msg, a) => r == Some(Value(msg)) && !failed && Assembled() == a && Buffered() == []
        case More(a) => r == None && !failed && Assembled() == a && Buffered() == []
        case Reject(e) => r == Some(Error(Protocol(e))) && failed && e != FailedReader
    {
      if f.opcode == 8 {
        message, messageOpcode, messageCompressed := [], 0, false;
        return Some(Value(Close));
      } else if f.opcode == 9 {
        return Some(Value(Ping(f.payload)));
      } else if f.opcode == 10 {
        return Some(Value(Pong(f.payload)));
      }
      if f.opcode != 0 {
        messageOpcode, messageCompressed, message := f.opcode, f.compressed, f.payload;
      } else {
        message := message + f.payload;
      }
      if !f.fin {
        return None;
      }
      var msg := Complete();
      r := Some(msg);
    }

    /** Hand over the reassembled message; a decoding error is lasting. */
    method Complete() returns (r: ReadResult<Message>)
      requires Valid() && !failed && Buffered() == [] && 1 <= messageOpcode <= 2
      modifies this`failed, this`message, this`messageOpcode, this`messageCompressed
      ensures Valid()
      ensures match Completed(old(Assembled()))
        case Emit(msg, a) => r == Value(msg) && !failed && Assembled() == a && Buffered() == []
        case Reject(e) => r == Error(Protocol(e)) && failed
        case More(_) => false
    {
      failed := true;
      var body := message;
      message := [];
      if messageCompressed {
        var decoded := Decode(body);
        if decoded.None? {
          return Error(Protocol(BadPayload));
        }
        body := decoded.value;
      }
      r := Value(DataMessage(messageOpcode, body));
      messageOpcode, messageCompressed := 0, false;
      failed := false;
    }

    /** The result of a call is the outcome that the bytes still to come call for. */
    ghost predicate Delivers(r: ReadResult<Message>, goal: Outcome, compression: bool, stream: Stream, was: nat)
      requires Valid()
      reads this, header, payload, stream
    {
      match r
      case Value(msg) => !failed && Buffered() == [] && goal == Next(msg, Assembled(), Bytes(stream.script))
      case Closed => !failed && Buffered() == [] && AtEof(stream.script) && goal == Pending(NO_MESSAGE, [])
      case Error(ReadTimedOut) =>
        && !failed && (|stream.script| < was || was == 0)
        && NextMessage(Assembled(), compression, Buffered() + Bytes(stream.script)) == goal
        && ParseFrame(Assembled(), compression, Buffered()) == NeedMore
      case Error(Truncated) => failed && AtEof(stream.script) && goal.Pending? && goal.rest != []
      case Error(Incomplete) => failed && AtEof(stream.script) && goal.Pending? && goal.rest == [] && goal.a.opcode != 0
      case Error(Protocol(e)) => failed && e != FailedReader && goal == Broken(e)
      case Error(IoBroken) => failed && AtFault(stream.script) && goal.Pending?
    }
  }

  lemma NextByFrame(a: Assembly, compression: bool, s: seq<byte>, parse: FrameParse)
    requires parse == ParseFrame(a, compression, s)
    ensures parse == NeedMore ==> NextMessage(a, compression, s) == Pending(a, s)
    ensures parse.BadFrame? ==> NextMessage(a, compression, s) == Broken(parse.reason)
    ensures parse.FrameAt? ==>
      NextMessage(a, compression, s) == AfterStep(OnFrame(a, parse.frame), compression, s, parse.rest)
  {
  }

  /** What acceptance of a frame says about its kind and size. */
  lemma FrameFacts(a: Assembly, compression: bool, s: seq<byte>)
    requires ParseFrame(a, compression, s).FrameAt?
    ensures var f := ParseFrame(a, compression, s).frame;
      && (f.opcode <= 2 || IsControl(f.opcode))
      && (f.opcode == 0 ==> a.opcode != 0) && (1 <= f.opcode <= 2 ==> a.opcode == 0)
      && LengthAllowed(a, f.opcode, |f.payload|)
  {
  }

  /** What a reader keeps in memory stays within the limits, also after it has failed. */
  lemma Retained(r: FrameReader)
    requires r.Valid()
    ensures |r.message| <= MAX_FRAME_SIZE && r.payload.Length <= MAX_FRAME_SIZE
    ensures !r.failed && r.payload.Length > 0 && !IsControl(Opcode(r.header[0])) ==>
      |r.message| + r.payload.Length <= MAX_FRAME_SIZE
  {
  }

  // ---- Whole runs ----

  lemma SameNext(a: Assembly, s: seq<byte>, a': Assembly, s': seq<byte>, compression: bool)
    requires NextMessage(a, compression, s) == NextMessage(a', compression, s')
    ensures AllMessages(a, compression, s) == AllMessages(a', compression, s')
    ensures Ending(a, compression, s) == Ending(a', compression, s')
  {
  }

  /** How a run of the reader ends agrees with how its bytes end, and with why the transport stopped. */
  ghost predicate Concludes(r: ReadResult<Message>, end: Outcome, script: seq<Event>)
  {
    match r
    case Value(_) => false
    case Closed => AtEof(script) && end == Pending(NO_MESSAGE, [])
    case Error(ReadTimedOut) => script == [] && end.Pending?
    case Error(Truncated) => AtEof(script) && end.Pending? && end.rest != []
    case Error(Incomplete) => AtEof(script) && end.Pending? && end.rest == [] && end.a.opcode != 0
    case Error(Protocol(e)) => end == Broken(e)
    case Error(IoBroken) => AtFault(script) && end.Pending?
  }

  /** `msgs` have been read, and what is left of the bytes brings the rest of `all`. */
  ghost predicate Progress(msgs: seq<Message>, a: Assembly, s: seq<byte>, compression: bool,
                           all: seq<Message>, end: Outcome)
  {
    msgs + AllMessages(a, compression, s) == all && Ending(a, compression, s) == end
  }

  lemma NothingRead(a: Assembly, s: seq<byte>, compression: bool)
    ensures Progress([], a, s, compression, AllMessages(a, compression, s), Ending(a, compression, s))
  {
    assert [] + AllMessages(a, compression, s) == AllMessages(a, compression, s);
  }

  lemma TakeMessage(msgs: seq<Message>, msg: Message, a: Assembly, s: seq<byte>, a': Assembly, s': seq<byte>,
                    compression: bool, all: seq<Message>, end: Outcome)
    requires Progress(msgs, a, s, compression, all, end) && NextMessage(a, compression, s) == Next(msg, a', s')
    ensures Progress(msgs + [msg], a', s', compression, all, end)
  {
    Assoc(msgs, [msg], AllMessages(a', compression, s'));
  }

  lemma WaitOn(msgs: seq<Message>, a: Assembly, s: seq<byte>, a': Assembly, s': seq<byte>,
               compression: bool, all: seq<Message>, end: Outcome)
    requires Progress(msgs, a, s, compression, all, end)
    requires NextMessage(a, compression, s) == NextMessage(a', compression, s')
    ensures Progress(msgs, a', s', compression, all, end)
  {
    SameNext(a, s, a', s', compression);
  }

  lemma NoMoreMessages(msgs: seq<Message>, a: Assembly, s: seq<byte>, compression: bool,
                       all: seq<Message>, end: Outcome)
    requires Progress(msgs, a, s, compression, all, end) && !NextMessage(a, compression, s).Next?
    ensures msgs == all && end == NextMessage(a, compression, s)
  {
  }

  /**
    Poll the reader until the transport has nothing more: however the bytes were cut, and
    whatever timeouts and interrupts came between, the messages are those of the bytes.
   */
  method Poll(reader: FrameReader, stream: Stream, compression: bool)
    returns (msgs: seq<Message>, last: ReadResult<Message>)
    requires reader.Valid() && !reader.failed
    modifies reader, reader.header, reader.payload, stream
    ensures reader.Valid()
    ensures
      var a, s := old(reader.Assembled()), old(reader.Buffered()) + Bytes(old(stream.script));
      && msgs == AllMessages(a, compression, s)
      && Concludes(last, Ending(a, compression, s), stream.script)
      && (last == Error(ReadTimedOut) ==>
            !reader.failed && Ending(a, compression, s) == Pending(reader.Assembled(), reader.Buffered()))
  {
    msgs := [];
    ghost var a, s := reader.Assembled(), reader.Buffered() + Bytes(stream.script);
    ghost var all, end := AllMessages(a, compression, s), Ending(a, compression, s);
    NothingRead(a, s, compression);
    while true
      invariant reader.Valid() && !reader.failed
      invariant reader.payload == old(reader.payload) || fresh(reader.payload)
      invariant a == reader.Assembled() && s == reader.Buffered() + Bytes(stream.script)
      invariant Progress(msgs, a, s, compression, all, end)
      decreases |s| + |stream.script|
    {
      last := reader.ReadMessage(stream, compression);
      if !last.Value? && last != Error(ReadTimedOut) {
        NoMoreMessages(msgs, a, s, compression, all, end);
        return;
      }
      ghost var a', s' := reader.Assembled(), reader.Buffered() + Bytes(stream.script);
      if last.Value? {
        assert s' == Bytes(stream.script);
        TakeMessage(msgs, last.v, a, s, a', s', compression, all, end);
        msgs := msgs + [last.v];
      } else {
        WaitOn(msgs, a, s, a', s', compression, all, end);
        if stream.script == [] {
          assert s' == reader.Buffered();
          NoMoreMessages(msgs, a', s', compression, all, end);
          return;
        }
      }
      a, s := a', s';
    }
  }
}
