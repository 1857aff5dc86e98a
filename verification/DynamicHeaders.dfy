/**
  Dynamic blocks (section 3.2.7 of RFC 1951) from the side of whoever writes them: a header for
  any pair of tables, in any run-length spelling, and the block of any tokens behind it. The
  numbers of the standard are written out here; the decoder's own are not used.
 */
module DynamicHeaders {
  import opened Bits
  import opened BitStreams
  import opened Huffman
  import opened DeflateTables
  import opened Inflate
  import opened Deflate
  import opened DeflateRoundTrip

  // ---- Run-length spellings ----

  /** One step of spelling out code lengths. */
  datatype Spelling =
    | Length(len: nat)
    | CopyPrevious(times: nat)
    | ShortZeros(times: nat)
    | LongZeros(times: nat)

  predicate Sized(t: Spelling)
  {
    match t
    case Length(len) => len <= 15
    case CopyPrevious(n) => 3 <= n <= 6
    case ShortZeros(n) => 3 <= n <= 10
    case LongZeros(n) => 11 <= n <= 138
  }

  /** Behind the lengths `acc`, the step makes sense. */
  predicate StepOk(t: Spelling, acc: seq<nat>)
  {
    Sized(t) && (t.CopyPrevious? ==> acc != [])
  }

  /** The lengths that a step adds to those before it. */
  function Stretch(t: Spelling, acc: seq<nat>): (s: seq<nat>)
    requires StepOk(t, acc)
    ensures |s| >= 1
  {
    match t
    case Length(len) => [len]
    case CopyPrevious(n) => seq(n, _ => acc[|acc| - 1])
    case ShortZeros(n) => seq(n, _ => 0)
    case LongZeros(n) => seq(n, _ => 0)
  }

  /** The steps lead from `acc` to `lens`. */
  predicate Spells(ts: seq<Spelling>, acc: seq<nat>, lens: seq<nat>)
  {
    if ts == [] then acc == lens
    else StepOk(ts[0], acc) && Spells(ts[1..], acc + Stretch(ts[0], acc), lens)
  }

  // ---- The bits of a header ----

  /** The alphabet of the code-length code, and the extra bits of its last three symbols. */
  function SymbolFor(t: Spelling): nat
  {
    match t
    case Length(len) => len
    case CopyPrevious(_) => 16
    case ShortZeros(_) => 17
    case LongZeros(_) => 18
  }

  function ExtraFor(t: Spelling): seq<bool>
    requires Sized(t)
  {
    match t
    case Length(_) => []
    case CopyPrevious(n) => Lsb(n - 3, 2)
    case ShortZeros(n) => Lsb(n - 3, 3)
    case LongZeros(n) => Lsb(n - 11, 7)
  }

  predicate Coded(cl: seq<nat>, t: Spelling)
  {
    Sized(t) && SymbolFor(t) < |cl| && cl[SymbolFor(t)] > 0
  }

  /** Every step has a code. */
  predicate AllCoded(cl: seq<nat>, ts: seq<Spelling>)
  {
    ts == [] || (Coded(cl, ts[0]) && AllCoded(cl, ts[1..]))
  }

  function StepBits(cl: seq<nat>, t: Spelling): seq<bool>
    requires Coded(cl, t)
  {
    CodeBits(cl, SymbolFor(t)) + ExtraFor(t)
  }

  function StepsBits(cl: seq<nat>, ts: seq<Spelling>): seq<bool>
    requires AllCoded(cl, ts)
  {
    if ts == [] then [] else StepBits(cl, ts[0]) + StepsBits(cl, ts[1..])
  }

  /** The order in which the lengths of the code-length code are sent. */
  const ORDER: seq<nat> := [16, 17, 18, 0, 8, 7, 9, 6, 10, 5, 11, 4, 12, 3, 13, 2, 14, 1, 15]

  /** A table for the code-length code, sent up to its `n`th entry. */
  predicate ClOk(cl: seq<nat>, n: nat)
  {
    && |cl| == 19 && Fits(cl) && (forall j :: 0 <= j < 19 ==> cl[j] <= 7)
    && 4 <= n <= 19 && forall j :: n <= j < 19 ==> cl[ORDER[j]] == 0
  }

  function ClBits(cl: seq<nat>, n: nat): seq<bool>
    requires |cl| == 19 && n <= 19
  {
    if n == 0 then [] else ClBits(cl, n - 1) + Lsb(cl[ORDER[n - 1]], 3)
  }

  /** A number in a field of some bits. */
  datatype Number = Number(value: nat, width: nat)

  function FieldsBits(fields: seq<Number>): seq<bool>
  {
    if fields == [] then [] else Lsb(fields[0].value, fields[0].width) + FieldsBits(fields[1..])
  }

  /** HLIT, HDIST and HCLEN. */
  function SizesBits(hlit: nat, total: nat, sent: nat): seq<bool>
    requires 257 <= hlit && hlit < total && 4 <= sent
  {
    FieldsBits([Number(hlit - 257, 5), Number(total - hlit - 1, 5), Number(sent - 4, 4)])
  }

  /** The lengths of both tables in a row, the first of them `hlit` long, and how they are sent. */
  datatype Header = Header(lens: seq<nat>, hlit: nat, cl: seq<nat>, sent: nat, steps: seq<Spelling>)

  predicate HeaderOk(h: Header)
  {
    && 257 <= h.hlit <= 286 && h.hlit < |h.lens| <= h.hlit + 30
    && Fits(h.lens[..h.hlit]) && Fits(h.lens[h.hlit..])
    && ClOk(h.cl, h.sent) && AllCoded(h.cl, h.steps) && Spells(h.steps, [], h.lens)
  }

  function CodePart(h: Header): seq<bool>
    requires HeaderOk(h)
  {
    ClBits(h.cl, h.sent) + StepsBits(h.cl, h.steps)
  }

  /** The sizes, the lengths of the code-length code, and the lengths of both tables. */
  function HeaderBits(h: Header): seq<bool>
    requires HeaderOk(h)
  {
    SizesBits(h.hlit, |h.lens|, h.sent) + CodePart(h)
  }

  // ---- Reading a header back ----

  /** The first `n` lengths sent, over a table of zeros. */
  function Sent(cl: seq<nat>, n: nat): (s: seq<nat>)
    requires |cl| == 19 && n <= 19
    ensures |s| == 19
  {
    if n == 0 then seq(19, _ => 0) else Sent(cl, n - 1)[ORDER[n - 1] := cl[ORDER[n - 1]]]
  }

  /** Every place is sent once. */
  lemma OrderCovers(j: nat) returns (k: nat)
    requires j < 19
    ensures k < 19 && ORDER[k] == j
  {
    k := [3, 17, 15, 13, 11, 9, 7, 5, 4, 6, 8, 10, 12, 14, 16, 18, 0, 1, 2][j];
  }

  lemma {:induction false} SentKeeps(cl: seq<nat>, n: nat, j: nat)
    requires |cl| == 19 && n <= 19 && j < 19
    ensures Sent(cl, n)[j] == cl[j] || Sent(cl, n)[j] == 0
    ensures (exists k :: 0 <= k < n && ORDER[k] == j) ==> Sent(cl, n)[j] == cl[j]
  {
    if n > 0 { SentKeeps(cl, n - 1, j); }
  }

  lemma SentAll(cl: seq<nat>, n: nat)
    requires ClOk(cl, n)
    ensures Sent(cl, n) == cl
  {
    forall j | 0 <= j < 19 ensures Sent(cl, n)[j] == cl[j] {
      SentKeeps(cl, n, j);
      var k := OrderCovers(j);
      if k >= n { assert cl[ORDER[k]] == 0; }
    }
  }

  predicate Small(lens: seq<nat>)
  {
    |lens| == 19 && forall j :: 0 <= j < 19 ==> lens[j] < 8
  }

  lemma ClFieldReads(n: nat, at: nat, l: nat, bits: seq<bool>, before: seq<nat>, rest: seq<bool>)
    requires n < 19 && at == ORDER[n] && at < 19 && l < 8
    requires ReadClLens(n, bits, seq(19, _ => 0)) == Got(before, Lsb(l, 3) + rest)
    ensures ReadClLens(n + 1, bits, seq(19, _ => 0)) == Got(before[at := l], rest)
  {
    assert Pow2(3) == 8;
    FieldOf(l, 3, rest);
    assert CL_ORDER[n] == ORDER[n];
  }

  lemma {:induction false} ClBitsRead(cl: seq<nat>, n: nat, rest: seq<bool>)
    requires Small(cl) && n <= 19
    ensures ReadClLens(n, ClBits(cl, n) + rest, seq(19, _ => 0)) == Got(Sent(cl, n), rest)
  {
    if n == 0 {
      assert [] + rest == rest;
    } else {
      var at := ORDER[n - 1];
      ClBitsRead(cl, n - 1, Lsb(cl[at], 3) + rest);
      Assoc(ClBits(cl, n - 1), Lsb(cl[at], 3), rest);
      ClFieldReads(n - 1, at, cl[at], ClBits(cl, n) + rest, Sent(cl, n - 1), rest);
    }
  }

  lemma StepReads(cl: seq<nat>, t: Spelling, acc: seq<nat>, rest: seq<bool>) returns (after: seq<bool>)
    requires Fits(cl) && |cl| == 19 && Coded(cl, t) && StepOk(t, acc)
    ensures DecodeSym(cl, StepBits(cl, t) + rest) == Got(SymbolFor(t), after)
    ensures Run(SymbolFor(t), after, acc) == Got(Stretch(t, acc), rest)
  {
    after := ExtraFor(t) + rest;
    DecodeCode(cl, SymbolFor(t), after);
    Assoc(CodeBits(cl, SymbolFor(t)), ExtraFor(t), rest);
    RunReads(t, acc, rest);
  }

  /** The extra bits of a repeat code read back as its count. */
  lemma RunReads(t: Spelling, acc: seq<nat>, rest: seq<bool>)
    requires StepOk(t, acc)
    ensures Run(SymbolFor(t), ExtraFor(t) + rest, acc) == Got(Stretch(t, acc), rest)
  {
    match t
    case Length(_) => assert [] + rest == rest;
    case CopyPrevious(n) => RepeatReads(acc[|acc| - 1], 2, 3, n, rest);
    case ShortZeros(n) => RepeatReads(0, 3, 3, n, rest);
    case LongZeros(n) => RepeatReads(0, 7, 11, n, rest);
  }

  lemma RepeatReads(what: nat, width: nat, least: nat, n: nat, rest: seq<bool>)
    requires least <= n < least + Pow2(width)
    ensures RunOf(what, width, least, Lsb(n - least, width) + rest) == Got(seq(n, _ => what), rest)
  {
    FieldOf(n - least, width, rest);
  }

  lemma {:induction false} StepsRead(cl: seq<nat>, ts: seq<Spelling>, acc: seq<nat>, lens: seq<nat>, rest: seq<bool>)
    requires Fits(cl) && |cl| == 19 && AllCoded(cl, ts) && Spells(ts, acc, lens) && ValidLens(acc)
    ensures |acc| <= |lens| && RunLengths(cl, StepsBits(cl, ts) + rest, acc, |lens|) == Got(lens, rest)
    decreases |ts|
  {
    if ts == [] {
      assert [] + rest == rest;
    } else {
      var tail := StepsBits(cl, ts[1..]) + rest;
      var run := Stretch(ts[0], acc);
      Assoc(StepBits(cl, ts[0]), StepsBits(cl, ts[1..]), rest);
      var after := StepReads(cl, ts[0], acc, tail);
      StepsRead(cl, ts[1..], acc + run, lens, rest);
    }
  }

  lemma ClTableReads(cl: seq<nat>, n: nat, rest: seq<bool>)
    requires ClOk(cl, n)
    ensures ClTable(n, ClBits(cl, n) + rest) == Got(cl, rest)
  {
    ClBitsRead(cl, n, rest);
    SentAll(cl, n);
  }

  lemma CodeReads(cl: seq<nat>, n: nat, steps: seq<Spelling>, lens: seq<nat>, rest: seq<bool>)
    requires ClOk(cl, n) && AllCoded(cl, steps) && Spells(steps, [], lens)
    ensures CodeLengths(n, |lens|, (ClBits(cl, n) + StepsBits(cl, steps)) + rest) == Got(lens, rest)
  {
    Assoc(ClBits(cl, n), StepsBits(cl, steps), rest);
    ClTableReads(cl, n, StepsBits(cl, steps) + rest);
    StepsRead(cl, steps, [], lens, rest);
  }

  lemma FirstField(f: Number, more: seq<Number>, rest: seq<bool>)
    requires f.value < Pow2(f.width)
    ensures Field(FieldsBits([f] + more) + rest, f.width) == Got(f.value, FieldsBits(more) + rest)
  {
    assert ([f] + more)[1..] == more;
    Assoc(Lsb(f.value, f.width), FieldsBits(more), rest);
    FieldOf(f.value, f.width, FieldsBits(more) + rest);
  }

  /** Three fields in a row are read one after the other. */
  lemma ThreeFields(f: Number, g: Number, h: Number, rest: seq<bool>) returns (r1: seq<bool>, r2: seq<bool>)
    requires f.value < Pow2(f.width) && g.value < Pow2(g.width) && h.value < Pow2(h.width)
    ensures Field(FieldsBits([f, g, h]) + rest, f.width) == Got(f.value, r1)
    ensures Field(r1, g.width) == Got(g.value, r2) && Field(r2, h.width) == Got(h.value, rest)
  {
    r1, r2 := FieldsBits([g] + [h]) + rest, FieldsBits([h] + []) + rest;
    FirstField(f, [g] + [h], rest);
    FirstField(g, [h] + [], rest);
    FirstField(h, [], rest);
    assert [] + rest == rest;
    assert [h] + [] == [h] && [f] + ([g] + [h]) == [f, g, h];
  }

  /** A value in a field of its width, once it is known to fit. */
  lemma SizesFit(hlit: nat, total: nat, sent: nat)
    requires 257 <= hlit <= 286 && hlit < total <= hlit + 30 && 4 <= sent <= 19
    ensures hlit - 257 < Pow2(5) && total - hlit - 1 < Pow2(5) && sent - 4 < Pow2(4)
  {
    assert Pow2(5) == 32 && Pow2(4) == 16;
  }

  lemma SizesRead(hlit: nat, total: nat, sent: nat, rest: seq<bool>)
    requires 257 <= hlit <= 286 && hlit < total <= hlit + 30 && 4 <= sent <= 19
    ensures TableSizes(SizesBits(hlit, total, sent) + rest) == Got(Sizes(hlit, total, sent), rest)
  {
    SizesFit(hlit, total, sent);
    var r1, r2 := ThreeFields(Number(hlit - 257, 5), Number(total - hlit - 1, 5), Number(sent - 4, 4), rest);
  }

  lemma SizesAhead(hlit: nat, total: nat, sent: nat, code: seq<bool>, rest: seq<bool>)
    requires 257 <= hlit <= 286 && hlit < total <= hlit + 30 && 4 <= sent <= 19
    ensures TableSizes((SizesBits(hlit, total, sent) + code) + rest) == Got(Sizes(hlit, total, sent), code + rest)
  {
    Assoc(SizesBits(hlit, total, sent), code, rest);
    SizesRead(hlit, total, sent, code + rest);
  }

  /** From what has been read of the two parts of a header to its tables. */
  lemma TablesRead(bits: seq<bool>, lens: seq<nat>, s: Sizes, body: seq<bool>, rest: seq<bool>)
    requires TableSizes(bits) == Got(s, body) && s.hlit <= |lens| && s.hclen <= 19
    requires Fits(lens[..s.hlit]) && Fits(lens[s.hlit..]) && CodeLengths(s.hclen, s.total, body) == Got(lens, rest)
    ensures DynamicTables(bits) == Got(Tables(lens[..s.hlit], lens[s.hlit..]), rest)
  {
    DynamicAfterSizes(bits, s, body);
  }

  lemma HeaderSizesRead(h: Header, rest: seq<bool>)
    requires HeaderOk(h)
    ensures TableSizes(HeaderBits(h) + rest) == Got(Sizes(h.hlit, |h.lens|, h.sent), CodePart(h) + rest)
  {
    SizesAhead(h.hlit, |h.lens|, h.sent, CodePart(h), rest);
  }

  lemma HeaderCodeReads(h: Header, rest: seq<bool>)
    requires HeaderOk(h)
    ensures CodeLengths(h.sent, |h.lens|, CodePart(h) + rest) == Got(h.lens, rest)
  {
    CodeReads(h.cl, h.sent, h.steps, h.lens, rest);
  }

  /** Whatever run-length spelling a header uses, the decoder reads its two tables and nothing behind it. */
  lemma HeaderRoundTrip(h: Header, rest: seq<bool>)
    requires HeaderOk(h)
    ensures DynamicTables(HeaderBits(h) + rest) == Got(Tables(h.lens[..h.hlit], h.lens[h.hlit..]), rest)
  {
    HeaderSizesRead(h, rest);
    HeaderCodeReads(h, rest);
    TablesRead(HeaderBits(h) + rest, h.lens, Sizes(h.hlit, |h.lens|, h.sent), CodePart(h) + rest, rest);
  }

  // ---- Nothing else is accepted ----

  lemma FieldIs(bits: seq<bool>, n: nat)
    requires Field(bits, n).Got?
    ensures bits == Lsb(Field(bits, n).value, n) + Field(bits, n).rest
  {
    FromLsbRoundTrip(bits[..n]);
  }

  lemma RepeatIs(what: nat, width: nat, least: nat, bits: seq<bool>) returns (n: nat)
    requires RunOf(what, width, least, bits).Got?
    ensures least <= n < least + Pow2(width)
    ensures RunOf(what, width, least, bits).value == seq(n, _ => what)
    ensures bits == Lsb(n - least, width) + RunOf(what, width, least, bits).rest
  {
    n := least + Field(bits, width).value;
    FieldIs(bits, width);
  }

  /** Every run the decoder accepts is a step of some spelling. */
  lemma RunIsStep(sym: nat, bits: seq<bool>, acc: seq<nat>) returns (t: Spelling)
    requires Run(sym, bits, acc).Got?
    ensures SymbolFor(t) == sym && StepOk(t, acc) && Stretch(t, acc) == Run(sym, bits, acc).value
    ensures bits == ExtraFor(t) + Run(sym, bits, acc).rest
  {
    if sym <= 15 {
      t := Length(sym);
      assert [] + bits == bits;
    } else if sym == 16 {
      var n := RepeatIs(acc[|acc| - 1], 2, 3, bits);
      t := CopyPrevious(n);
    } else if sym == 17 {
      var n := RepeatIs(0, 3, 3, bits);
      t := ShortZeros(n);
    } else {
      var n := RepeatIs(0, 7, 11, bits);
      t := LongZeros(n);
    }
  }

  lemma {:induction false} RunsAreSteps(cl: seq<nat>, bits: seq<bool>, acc: seq<nat>, total: nat)
    returns (ts: seq<Spelling>)
    requires Fits(cl) && |cl| == 19 && |acc| <= total && ValidLens(acc) && RunLengths(cl, bits, acc, total).Got?
    ensures AllCoded(cl, ts) && Spells(ts, acc, RunLengths(cl, bits, acc, total).value)
    ensures bits == StepsBits(cl, ts) + RunLengths(cl, bits, acc, total).rest
    decreases total - |acc|
  {
    if |acc| == total {
      ts := [];
      assert [] + bits == bits;
    } else {
      DecodeReadsCode(cl, bits);
      var Got(sym, r1) := DecodeSym(cl, bits);
      var t := RunIsStep(sym, r1, acc);
      var Got(run, r2) := Run(sym, r1, acc);
      var more := RunsAreSteps(cl, r2, acc + run, total);
      ts := [t] + more;
      assert ts[1..] == more;
      Regroup(CodeBits(cl, sym), ExtraFor(t), StepsBits(cl, more), RunLengths(cl, bits, acc, total).rest);
    }
  }

  lemma Regroup(a: seq<bool>, b: seq<bool>, c: seq<bool>, d: seq<bool>)
    ensures a + (b + (c + d)) == ((a + b) + c) + d
  {
    Assoc(a, b, c + d);
    Assoc(a + b, c, d);
  }

  lemma OrderDiffers(i: nat, j: nat)
    requires i < j < 19
    ensures ORDER[i] != ORDER[j]
  {
  }

  /** Changing an entry that comes later changes nothing of what was sent before. */
  lemma {:induction false} SentBefore(cl: seq<nat>, v: nat, n: nat, at: nat, m: nat)
    requires |cl| == 19 && m <= n < 19 && at == ORDER[n] && at < 19
    ensures ClBits(cl[at := v], m) == ClBits(cl, m)
  {
    if m > 0 {
      SentBefore(cl, v, n, at, m - 1);
      OrderDiffers(m - 1, n);
      EntryKept(cl, v, at, ORDER[m - 1]);
    }
  }

  lemma EntryKept(cl: seq<nat>, v: nat, at: nat, j: nat)
    requires at < |cl| && j < |cl| && at != j
    ensures cl[at := v][j] == cl[j]
  {
  }

  ghost predicate Unsent(cl: seq<nat>, n: nat)
  {
    |cl| == 19 && forall j :: n <= j < 19 ==> cl[ORDER[j]] == 0
  }

  lemma UnsentStep(cl: seq<nat>, v: nat, n: nat, at: nat)
    requires n < 19 && Unsent(cl, n) && at == ORDER[n] && at < 19
    ensures Unsent(cl[at := v], n + 1)
  {
    forall j | n < j < 19 ensures cl[at := v][ORDER[j]] == 0 {
      OrderDiffers(n, j);
    }
  }

  lemma ClBitsStep(cl: seq<nat>, v: nat, n: nat, at: nat, rest: seq<bool>)
    requires |cl| == 19 && n < 19 && at == ORDER[n] && at < 19
    ensures ClBits(cl[at := v], n + 1) + rest == ClBits(cl, n) + (Lsb(v, 3) + rest)
  {
    SentBefore(cl, v, n, at, n);
    assert ClBits(cl[at := v], n + 1) == ClBits(cl, n) + Lsb(v, 3);
    Assoc(ClBits(cl, n), Lsb(v, 3), rest);
  }

  lemma ClFieldIs(n: nat, bits: seq<bool>, before: seq<nat>, r1: seq<bool>, cl: seq<nat>, rest: seq<bool>)
    returns (v: nat, at: nat)
    requires n < 19 && ReadClLens(n, bits, seq(19, _ => 0)) == Got(before, r1)
    requires ReadClLens(n + 1, bits, seq(19, _ => 0)) == Got(cl, rest)
    ensures at == ORDER[n] && at < 19 && cl == before[at := v] && Field(r1, 3) == Got(v, rest)
  {
    v, at := Field(r1, 3).value, ORDER[n];
    assert CL_ORDER[n] == ORDER[n];
  }

  /** What was read of the code-length code was sent. */
  lemma {:induction false} ClReadIsSent(n: nat, bits: seq<bool>, cl: seq<nat>, rest: seq<bool>)
    requires n <= 19 && |cl| == 19 && ReadClLens(n, bits, seq(19, _ => 0)) == Got(cl, rest)
    ensures bits == ClBits(cl, n) + rest
  {
    if n == 0 {
      assert [] + bits == bits;
    } else {
      var Got(before, r1) := ReadClLens(n - 1, bits, seq(19, _ => 0));
      ClReadIsSent(n - 1, bits, before, r1);
      var v, at := ClFieldIs(n - 1, bits, before, r1, cl, rest);
      FieldIs(r1, 3);
      ClBitsStep(before, v, n - 1, at, rest);
    }
  }

  /** The rest of its table is zero. */
  lemma {:induction false} ClReadIsAll(n: nat, bits: seq<bool>, cl: seq<nat>, rest: seq<bool>)
    requires n <= 19 && ReadClLens(n, bits, seq(19, _ => 0)) == Got(cl, rest)
    ensures Unsent(cl, n)
  {
    if n > 0 {
      var Got(before, r1) := ReadClLens(n - 1, bits, seq(19, _ => 0));
      ClReadIsAll(n - 1, bits, before, r1);
      var v, at := ClFieldIs(n - 1, bits, before, r1, cl, rest);
      UnsentStep(before, v, n - 1, at);
    }
  }

  lemma CodeIs(n: nat, total: nat, bits: seq<bool>, lens: seq<nat>, rest: seq<bool>)
    returns (cl: seq<nat>, steps: seq<Spelling>)
    requires 4 <= n <= 19 && CodeLengths(n, total, bits) == Got(lens, rest)
    ensures ClOk(cl, n) && AllCoded(cl, steps) && Spells(steps, [], lens)
    ensures bits == (ClBits(cl, n) + StepsBits(cl, steps)) + rest
  {
    var Got(table, body) := ReadClLens(n, bits, seq(19, _ => 0));
    ClReadIsSent(n, bits, table, body);
    ClReadIsAll(n, bits, table, body);
    cl := table;
    steps := RunsAreSteps(cl, body, [], total);
    Assoc(ClBits(cl, n), StepsBits(cl, steps), rest);
  }

  lemma FirstFieldIs(bits: seq<bool>, f: Number, r: seq<bool>, more: seq<Number>, rest: seq<bool>)
    requires Field(bits, f.width) == Got(f.value, r) && r == FieldsBits(more) + rest
    ensures bits == FieldsBits([f] + more) + rest
  {
    FieldIs(bits, f.width);
    assert ([f] + more)[1..] == more;
    Assoc(Lsb(f.value, f.width), FieldsBits(more), rest);
  }

  lemma ThreeFieldsAre(bits: seq<bool>, f: Number, g: Number, h: Number, r1: seq<bool>, r2: seq<bool>, rest: seq<bool>)
    requires Field(bits, f.width) == Got(f.value, r1)
    requires Field(r1, g.width) == Got(g.value, r2) && Field(r2, h.width) == Got(h.value, rest)
    ensures bits == FieldsBits([f, g, h]) + rest
  {
    assert [] + rest == rest;
    FirstFieldIs(r2, h, rest, [], rest);
    FirstFieldIs(r1, g, r2, [h] + [], rest);
    FirstFieldIs(bits, f, r1, [g] + ([h] + []), rest);
    assert [f] + ([g] + ([h] + [])) == [f, g, h];
  }

  lemma SizesInRange(bits: seq<bool>, s: Sizes, rest: seq<bool>)
    requires TableSizes(bits) == Got(s, rest)
    ensures 257 <= s.hlit <= 286 && s.hlit < s.total <= s.hlit + 30 && 4 <= s.hclen <= 19
  {
    assert Pow2(4) == 16;
  }

  lemma SizesAre(bits: seq<bool>, s: Sizes, rest: seq<bool>)
    requires TableSizes(bits) == Got(s, rest)
    requires 257 <= s.hlit <= 286 && s.hlit < s.total <= s.hlit + 30 && 4 <= s.hclen <= 19
    ensures bits == SizesBits(s.hlit, s.total, s.hclen) + rest
  {
    var r1 := Field(bits, 5).rest;
    var r2 := Field(r1, 5).rest;
    var ll, dist, cl := Number(s.hlit - 257, 5), Number(s.total - s.hlit - 1, 5), Number(s.hclen - 4, 4);
    ThreeFieldsAre(bits, ll, dist, cl, r1, r2, rest);
  }

  /** The lengths behind the sizes that were read. */
  lemma LengthsAre(bits: seq<bool>, t: Tables, rest: seq<bool>, s: Sizes, body: seq<bool>) returns (lens: seq<nat>)
    requires DynamicTables(bits) == Got(t, rest) && TableSizes(bits) == Got(s, body) && s.hclen <= 19
    ensures CodeLengths(s.hclen, s.total, body) == Got(lens, rest)
  {
    lens := CodeLengths(s.hclen, s.total, body).value;
  }

  lemma PairIs(t: Tables, hlit: nat, lens: seq<nat>, rest: seq<bool>)
    requires hlit <= |lens| && PairTables(hlit, Got(lens, rest)) == Got(t, rest)
    ensures t == Tables(lens[..hlit], lens[hlit..]) && Fits(t.ll) && Fits(t.dist)
  {
  }

  lemma TablesAre(bits: seq<bool>, t: Tables, rest: seq<bool>, s: Sizes, body: seq<bool>, lens: seq<nat>)
    requires DynamicTables(bits) == Got(t, rest) && TableSizes(bits) == Got(s, body) && s.hclen <= 19
    requires CodeLengths(s.hclen, s.total, body) == Got(lens, rest)
    ensures t == Tables(lens[..s.hlit], lens[s.hlit..]) && Fits(t.ll) && Fits(t.dist)
  {
    DynamicAfterSizes(bits, s, body);
    PairIs(t, s.hlit, lens, rest);
  }

  /** Only headers are read as headers: whatever the decoder accepts, some spelling of its tables wrote it. */
  lemma HeaderSound(bits: seq<bool>, t: Tables, rest: seq<bool>) returns (h: Header)
    requires DynamicTables(bits) == Got(t, rest)
    ensures HeaderOk(h) && h.lens[..h.hlit] == t.ll && h.lens[h.hlit..] == t.dist
    ensures bits == HeaderBits(h) + rest
  {
    var s, body := TableSizes(bits).value, TableSizes(bits).rest;
    SizesInRange(bits, s, body);
    SizesAre(bits, s, body);
    var lens := LengthsAre(bits, t, rest, s, body);
    TablesAre(bits, t, rest, s, body, lens);
    var cl, steps := CodeIs(s.hclen, s.total, body, lens, rest);
    h := Header(lens, s.hlit, cl, s.hclen, steps);
    Assoc(SizesBits(s.hlit, s.total, s.hclen), CodePart(h), rest);
  }
}
