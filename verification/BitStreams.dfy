/**
  The bit writer of the encoder and the bit reader of the decoder, as objects over a
  byte buffer and a small accumulator, each proved against the bit stream it stands for.
 */
module BitStreams {
  import opened Bits

  datatype InflateErr = UnexpectedEof | InvalidData | BadDistance | BadCode | MaxSizeExceeded

  datatype Result<+T> = Ok(value: T) | Err(error: InflateErr) {
    predicate IsFailure() { Err? }
    function PropagateFailure<U>(): Result<U>
      requires Err?
    {
      Err(error)
    }
    function Extract(): T
      requires Ok?
    {
      value
    }
  }

  /** The outcome of reading something off the front of a bit stream. */
  datatype Parse<+T> = Got(value: T, rest: seq<bool>) | Bad(error: InflateErr)

  /** A field of `n` bits at the front of a stream, least significant bit first. */
  function Field(bits: seq<bool>, n: nat): (r: Parse<nat>)
    ensures r.Got? <==> n <= |bits|
    ensures r.Got? ==> |r.rest| == |bits| - n && r.value < Pow2(n)
  {
    if |bits| < n then Bad(UnexpectedEof)
    else FromLsbBound(bits[..n]); Got(FromLsb(bits[..n]), bits[n..])
  }

  /** A reader has done what `spec` says: delivered the value and moved to the rest, or failed. */
  ghost predicate Reads<T>(res: Result<T>, r: BitReader, spec: Parse<T>)
    reads r
  {
    if spec.Got? then res == Ok(spec.value) && r.Valid() && r.Rest() == spec.rest else res == Err(spec.error)
  }

  class BitWriter {
    var buf: seq<byte>
    var bits: nat
    var n: nat

    ghost predicate Valid()
      reads this
    {
      n < 8 && bits < Pow2(n)
    }

    /** The whole bit stream written so far. */
    ghost function Written(): seq<bool>
      reads this
    {
      BytesToBits(buf) + Lsb(bits, n)
    }

    constructor ()
      ensures Valid() && Written() == []
    {
      buf, bits, n := [], 0, 0;
    }

    /** Append the `len` low bits of `val`, least significant first. */
    method Put(val: nat, len: nat)
      requires Valid() && len <= 16 && val < Pow2(len)
      modifies this
      ensures Valid() && Written() == old(Written()) + Lsb(val, len)
    {
      OrDisjointLsb(bits, val, n, len);
      bits := Or(bits, Shl(val, n));
      n := n + len;
      assert Written() == old(Written()) + Lsb(val, len);
      while n >= 8
        invariant bits < Pow2(n)
        invariant Written() == old(Written()) + Lsb(val, len)
      {
        MoveByte(buf, bits, n);
        buf := buf + [And(bits, 0xFF)];
        bits := Shr(bits, 8);
        n := n - 8;
      }
    }

    /** Append a Huffman code of `len` bits, most significant bit first. */
    method PutMsb(val: nat, len: nat)
      requires Valid() && len <= 16 && val < Pow2(len)
      modifies this
      ensures Valid() && Written() == old(Written()) + Msb(val, len)
    {
      var r: nat, v: nat := 0, val;
      for i := 0 to len
        invariant unchanged(this)
        invariant r < Pow2(i)
        invariant Msb(val, len) == Msb(v, len - i) + Lsb(r, i)
      {
        TurnBit(v, len - i, r, i);
        var r' := Or(Shl(r, 1), And(v, 1));
        r, v := r', Shr(v, 1);
      }
      assert Msb(val, len) == Lsb(r, len);
      Put(r, len);
    }

    /** Pad the last partial byte with zero bits. */
    method Flush()
      requires Valid()
      modifies this
      ensures Valid() && n == 0
      ensures Written() == old(Written()) + Zeros((8 - |old(Written())| % 8) % 8)
    {
      PartialByte(buf, bits, n);
      if n > 0 {
        PadByte(buf, bits, n);
        buf := buf + [And(bits, 0xFF)];
        bits, n := 0, 0;
        assert Written() == BytesToBits(buf);
      }
    }

    /** Hand over the bytes: the packing of everything written. */
    method Finish() returns (out: seq<byte>)
      requires Valid()
      modifies this
      ensures out == Pack(old(Written()))
    {
      Flush();
      PackUnique(buf, old(Written()));
      out := buf;
    }
  }

  lemma {:induction false} OrCommutes(x: nat, y: nat)
    ensures Or(x, y) == Or(y, x)
    decreases x + y
  {
    if x != 0 || y != 0 { OrCommutes(x / 2, y / 2); }
  }

  /** Moving the low byte of the accumulator to the buffer keeps the stream. */
  lemma MoveByte(buf: seq<byte>, bits: nat, n: nat)
    requires n >= 8 && bits < Pow2(n)
    ensures And(bits, 0xFF) < 256 && Shr(bits, 8) < Pow2(n - 8)
    ensures BytesToBits(buf + [And(bits, 0xFF)]) + Lsb(Shr(bits, 8), n - 8) == BytesToBits(buf) + Lsb(bits, n)
  {
    assert Pow2(8) == 256;
    TakeLow(bits, 8, n - 8);
    var lo := And(bits, 0xFF);
    BytesToBitsPush(buf, lo);
    Assoc(BytesToBits(buf), Lsb(lo, 8), Lsb(Shr(bits, 8), n - 8));
  }

  lemma EightsAnd(k: nat, n: nat)
    requires n < 8
    ensures (8 - (8 * k + n) % 8) % 8 == if n == 0 then 0 else 8 - n
  {
    assert (8 * k + n) % 8 == n;
  }

  lemma PartialByte(buf: seq<byte>, bits: nat, n: nat)
    requires n < 8
    ensures (8 - |BytesToBits(buf) + Lsb(bits, n)| % 8) % 8 == if n == 0 then 0 else 8 - n
    ensures Zeros(0) == []
  {
    var k, size := |buf|, |BytesToBits(buf) + Lsb(bits, n)|;
    assert size == 8 * k + n;
    EightsAnd(k, n);
  }

  lemma PadByte(buf: seq<byte>, bits: nat, n: nat)
    requires n < 8 && bits < Pow2(n)
    ensures And(bits, 0xFF) < 256
    ensures BytesToBits(buf + [And(bits, 0xFF)]) == (BytesToBits(buf) + Lsb(bits, n)) + Zeros(8 - n)
  {
    Pow2Mono(n, 8);
    assert Pow2(8) == 256;
    AndSmall(bits, 8);
    assert Lsb(bits, 8) == Lsb(bits, n) + Zeros(8 - n) by {
      LsbPad(bits, n, 8 - n);
    }
    BytesToBitsPush(buf, bits);
  }

  /** One step of the bit reversal: the next low bit of `v` becomes the next high bit. */
  lemma TurnBit(v: nat, k: nat, r: nat, i: nat)
    requires k > 0 && r < Pow2(i)
    ensures Or(Shl(r, 1), And(v, 1)) < Pow2(i + 1)
    ensures Msb(v, k) + Lsb(r, i) == Msb(Shr(v, 1), k - 1) + Lsb(Or(Shl(r, 1), And(v, 1)), i + 1)
  {
    var b := v % 2;
    SplitWord(v, 1);
    OrDisjoint(b, r, 1);
    OrCommutes(b, Shl(r, 1));
    assert Lsb(2 * r + b, i + 1) == [b == 1] + Lsb(r, i);
  }

  lemma AppendByte(data: seq<byte>, pos: nat, bit: nat, nbits: nat)
    requires pos < |data| && bit < Pow2(nbits)
    ensures Or(bit, Shl(data[pos], nbits)) < Pow2(nbits + 8)
    ensures Lsb(Or(bit, Shl(data[pos], nbits)), nbits + 8) + BytesToBits(data[pos + 1..]) ==
            Lsb(bit, nbits) + BytesToBits(data[pos..])
  {
    var b := data[pos];
    OrDisjointLsb(bit, b, nbits, 8);
    assert data[pos..] == [b] + data[pos + 1..];
    Assoc(Lsb(bit, nbits), Lsb(b, 8), BytesToBits(data[pos + 1..]));
  }

  class BitReader {
    const data: seq<byte>
    var pos: nat
    var bit: nat
    var nbits: nat

    ghost predicate Valid()
      reads this
    {
      pos <= |data| && nbits < 8 && bit < Pow2(nbits)
    }

    /** The bits still to be read. */
    ghost function Rest(): seq<bool>
      requires pos <= |data|
      reads this
    {
      Lsb(bit, nbits) + BytesToBits(data[pos..])
    }

    constructor (data: seq<byte>)
      ensures Valid() && this.data == data && Rest() == BytesToBits(data)
    {
      this.data := data;
      pos, bit, nbits := 0, 0, 0;
      new;
      assert data[0..] == data;
    }

    /** Buffer at least `n` bits, if the input has them. */
    method Refill(n: nat) returns (ok: bool)
      requires Valid() && 1 <= n <= 16
      modifies this
      ensures ok <==> |old(Rest())| >= n
      ensures ok ==> pos <= |data| && n <= nbits && nbits - n < 8 && bit < Pow2(nbits) && Rest() == old(Rest())
    {
      while nbits < n
        invariant pos <= |data| && nbits < n + 8 && bit < Pow2(nbits)
        invariant Rest() == old(Rest())
      {
        if pos >= |data| {
          return false;
        }
        var b := data[pos];
        AppendByte(data, pos, bit, nbits);
        bit := Or(bit, Shl(b, nbits));
        pos := pos + 1;
        nbits := nbits + 8;
      }
      ok := true;
    }

    /** Read `n` bits as an integer, least significant first. */
    method Read(n: nat) returns (r: Result<nat>)
      requires Valid() && 1 <= n <= 16
      modifies this
      ensures Reads(r, this, Field(old(Rest()), n))
    {
      var ok := Refill(n);
      if !ok {
        return Err(UnexpectedEof);
      }
      var v := TakeBuffered(n);
      r := Ok(v);
    }

    /** Take the lowest `n` bits off the buffer. */
    method TakeBuffered(n: nat) returns (v: nat)
      requires pos <= |data| && n <= nbits < n + 8 && bit < Pow2(nbits)
      modifies this
      ensures Valid() && Field(old(Rest()), n) == Got(v, Rest())
    {
      FieldTaken(bit, n, nbits, BytesToBits(data[pos..]));
      v := And(bit, Shl(1, n) - 1);
      bit := Shr(bit, n);
      nbits := nbits - n;
    }

    /** Drop what is buffered of the current byte. */
    method AlignByte()
      requires Valid()
      modifies this
      ensures Valid() && Rest() == old(Rest())[|old(Rest())| % 8..]
    {
      assert |Rest()| % 8 == nbits;
      bit, nbits := 0, 0;
    }

    /** Buffer the next byte. */
    method LoadByte()
      requires Valid() && nbits == 0 && pos < |data|
      modifies this
      ensures pos <= |data| && nbits == 8 && bit < Pow2(nbits) && Rest() == old(Rest())
    {
      ByteAhead(data, pos);
      bit := data[pos];
      pos := pos + 1;
      nbits := 8;
    }

    /** Read one bit of a Huffman code. */
    method ReadBit() returns (r: Result<nat>)
      requires Valid()
      modifies this
      ensures |old(Rest())| == 0 ==> r == Err(UnexpectedEof)
      ensures |old(Rest())| > 0 ==>
        Valid() && r == Ok(Bit(old(Rest())[0])) && Rest() == old(Rest())[1..]
    {
      if nbits == 0 {
        if pos >= |data| {
          return Err(UnexpectedEof);
        }
        LoadByte();
      }
      FirstBit(bit, nbits, data[pos..]);
      var v := And(bit, 1);
      bit := Shr(bit, 1);
      nbits := nbits - 1;
      r := Ok(v);
    }
  }

  /** A byte's bits come before those of the bytes behind it. */
  lemma ByteAhead(data: seq<byte>, pos: nat)
    requires pos < |data|
    ensures Lsb(0, 0) + BytesToBits(data[pos..]) == Lsb(data[pos], 8) + BytesToBits(data[pos + 1..])
    ensures data[pos] < Pow2(8)
  {
    assert Pow2(8) == 256;
    assert data[pos..][1..] == data[pos + 1..];
  }

  /** A field of the buffered bits is what masking and shifting give. */
  lemma TakeField(v: nat, n: nat, m: nat, more: seq<bool>)
    requires v < Pow2(n + m)
    ensures Field(Lsb(v, n + m) + more, n) == Got(And(v, Pow2(n) - 1), Lsb(Shr(v, n), m) + more)
    ensures Shr(v, n) < Pow2(m)
  {
    var lo, hi := And(v, Pow2(n) - 1), Shr(v, n);
    TakeLow(v, n, m);
    LsbRoundTrip(lo, n);
    var bits := Lsb(v, n + m) + more;
    assert bits[..n] == Lsb(lo, n);
    assert bits[n..] == Lsb(hi, m) + more;
  }

  lemma FieldTaken(v: nat, n: nat, total: nat, more: seq<bool>)
    requires n <= total && v < Pow2(total)
    ensures Shl(1, n) >= 1
    ensures Field(Lsb(v, total) + more, n) == Got(And(v, Shl(1, n) - 1), Lsb(Shr(v, n), total - n) + more)
    ensures Shr(v, n) < Pow2(total - n)
  {
    ShlOne(n);
    TakeField(v, n, total - n, more);
  }

  lemma FirstBit(v: nat, n: nat, bytes: seq<byte>)
    requires n > 0 && v < Pow2(n)
    ensures And(v, 1) == Bit((Lsb(v, n) + BytesToBits(bytes))[0])
    ensures Lsb(Shr(v, 1), n - 1) + BytesToBits(bytes) == (Lsb(v, n) + BytesToBits(bytes))[1..]
    ensures Shr(v, 1) < Pow2(n - 1)
  {
    SplitWord(v, 1);
    assert Lsb(v, n) == [v % 2 == 1] + Lsb(v / 2, n - 1);
  }
}
