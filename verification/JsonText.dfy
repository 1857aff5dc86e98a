/** The cursor-based JSON validator and field lookup, proved against the scanner and the grammar. */
module JsonText {
  import opened Bits
  import opened Utf8
  import opened JsonStrings
  import opened JsonNumbers
  import opened JsonGrammar
  import opened JsonScan

  // ---- Complete objects ----

  /** The object that makes up a whole text, if it is one. */
  function ParseObject(b: seq<byte>): Option<Json>
  {
    var s := Trim(b);
    if s == [] || s[0] != OPEN_BRACE then None
    else
      match ScanValue(s, 0)
      case NoMatch => None
      case Found(v, rest) => if Trim(rest) == [] then Some(v) else None
  }

  /** `b` is the text of `v` with white space around it. */
  ghost predicate Spells(b: seq<byte>, v: Json)
  {
    exists before, after :: AllWs(before) && AllWs(after) && b == before + (Print(v) + after)
  }

  predicate IsObject(v: Json)
  {
    v.Node? && v.braces && JsonOk(v, 0)
  }

  lemma ParseObjectSound(b: seq<byte>, v: Json)
    requires ParseObject(b) == Some(v)
    ensures IsObject(v) && Spells(b, v)
  {
    var s := Trim(b);
    BlankIsWs(b);
    ScanValueSound(s, 0);
    var rest := ScanValue(s, 0).rest;
    BlankIsWs(rest);
    assert rest == Blank(rest);
    assert b == Blank(b) + (Print(v) + rest);
  }

  lemma ParseObjectComplete(b: seq<byte>, v: Json)
    requires IsObject(v) && Spells(b, v)
    ensures ParseObject(b) == Some(v)
  {
    var before, after :| AllWs(before) && AllWs(after) && b == before + (Print(v) + after);
    var s := Print(v) + after;
    TrimWs(before, s);
    ScanValueComplete(v, 0, after);
    TrimWs(after, []);
    assert after + [] == after;
  }

  /**
    The texts accepted are exactly those of the grammar's objects within the depth bound and
    without duplicate names, and each has one reading.
   */
  lemma ValidatorExact(b: seq<byte>, v: Json)
    ensures ParseObject(b) == Some(v) <==> IsObject(v) && Spells(b, v)
  {
    if ParseObject(b) == Some(v) { ParseObjectSound(b, v); }
    if IsObject(v) && Spells(b, v) { ParseObjectComplete(b, v); }
  }

  // ---- Accepted texts are UTF-8 ----

  lemma Utf8Append(a: seq<byte>, b: seq<byte>)
    requires DecodeAll(a).Some? && DecodeAll(b).Some?
    ensures DecodeAll(a + b).Some?
  {
    var s, t := DecodeAll(a).value, DecodeAll(b).value;
    DecodeSound(a, s);
    DecodeSound(b, t);
    EncodeAppend(s, t);
    RoundTrip(s + t);
  }

  /** ASCII bytes are always UTF-8. */
  lemma {:induction false} AsciiDecodes(s: seq<byte>)
    requires forall k :: 0 <= k < |s| ==> s[k] < 0x80
    ensures DecodeAll(s).Some?
  {
    if s != [] {
      assert Encode(s[0]) == [s[0]];
      FirstOfEncode(s[0], s[1..]);
      assert [s[0]] + s[1..] == s;
      AsciiDecodes(s[1..]);
    }
  }

  lemma NumberDecodes(n: Number)
    requires NumberOk(n)
    ensures DecodeAll(NumberText(n)).Some?
  {
    forall k | 0 <= k < |NumberText(n)| ensures NumberText(n)[k] < 0x80 { NumberChars(n, NumberText(n)[k]); }
    AsciiDecodes(NumberText(n));
  }

  lemma LiteralDecodes(ps: seq<Piece>)
    ensures DecodeAll(Literal(ps)).Some?
  {
    RoundTrip(PiecesText(ps));
    AsciiDecodes([QUOTE]);
    Utf8Append([QUOTE], EncodeAll(PiecesText(ps)));
    Utf8Append([QUOTE] + EncodeAll(PiecesText(ps)), [QUOTE]);
  }

  lemma LabelDecodes(tag: Label)
    requires LabelOk(tag)
    ensures DecodeAll(LabelText(tag)).Some?
  {
    if tag.Label? {
      LiteralDecodes(tag.name);
      AsciiDecodes(tag.before);
      AsciiDecodes([COLON]);
      AsciiDecodes(tag.after);
      Utf8Append(Literal(tag.name), tag.before);
      Utf8Append(Literal(tag.name) + tag.before, [COLON]);
      Utf8Append(Literal(tag.name) + tag.before + [COLON], tag.after);
    }
  }

  lemma {:induction false} PrintDecodes(v: Json, depth: nat)
    requires JsonOk(v, depth)
    ensures DecodeAll(Print(v)).Some?
    decreases v
  {
    match v
    case Word(w) => AsciiDecodes(w);
    case Num(n) => NumberDecodes(n);
    case Str(ps) => LiteralDecodes(ps);
    case Node(braces, lead, es) =>
      AsciiDecodes([Open(braces)]);
      AsciiDecodes(lead);
      EntriesDecode(es, braces, depth, {});
      Utf8Append([Open(braces)], lead);
      Utf8Append([Open(braces)] + lead, PrintEntries(es, braces));
  }

  lemma {:induction false} EntriesDecode(es: Entries, braces: bool, depth: nat, seen: set<text>)
    requires EntriesOk(es, braces, depth, seen)
    ensures DecodeAll(PrintEntries(es, braces)).Some?
    decreases es
  {
    if es == End {
      AsciiDecodes([Close(braces)]);
    } else {
      var tail := PrintEntries(es.more, braces);
      EntriesDecode(es.more, braces, depth, seen + LabelNames(es.tag));
      AsciiDecodes([COMMA]);
      AsciiDecodes(es.sep);
      Utf8Append([COMMA], es.sep);
      Utf8Append([COMMA] + es.sep, tail);
      var after := Continued(es.sep, es.more == End, tail);
      AsciiDecodes(es.gap);
      Utf8Append(es.gap, after);
      PrintDecodes(es.value, depth + 1);
      Utf8Append(Print(es.value), es.gap + after);
      LabelDecodes(es.tag);
      Utf8Append(LabelText(es.tag), Print(es.value) + (es.gap + after));
    }
  }

  /** Only UTF-8 is accepted, though no check of the whole text is made. */
  lemma AcceptedIsUtf8(b: seq<byte>)
    requires ParseObject(b).Some?
    ensures DecodeAll(b).Some?
  {
    var v := ParseObject(b).value;
    ParseObjectSound(b, v);
    var before, after :| AllWs(before) && AllWs(after) && b == before + (Print(v) + after);
    PrintDecodes(v, 0);
    AsciiDecodes(before);
    AsciiDecodes(after);
    Utf8Append(Print(v), after);
    Utf8Append(before, Print(v) + after);
  }

  // ---- The cursors ----

  method SkipWs(b: seq<byte>, i: nat) returns (k: nat)
    requires i <= |b|
    ensures i <= k <= |b| && b[k..] == Trim(b[i..])
  {
    k := i;
    while k < |b| && IsWs(b[k])
      invariant i <= k <= |b| && Trim(b[k..]) == Trim(b[i..])
    {
      assert b[k..][1..] == b[k + 1..];
      assert Trim(b[k..]) == Trim(b[k + 1..]);
      k := k + 1;
    }
    assert WsLen(b[k..]) == 0;
  }

  method TokenEnd(b: seq<byte>, i: nat) returns (end: nat)
    requires i <= |b|
    ensures i <= end <= |b| && end == i + TokenLen(b[i..])
  {
    end := i;
    while end < |b| && !IsDelimiter(b[end])
      invariant i <= end <= |b| && end + TokenLen(b[end..]) == i + TokenLen(b[i..])
    {
      assert b[end..][1..] == b[end + 1..];
      end := end + 1;
    }
  }

  lemma TokensDecode(token: seq<byte>)
    requires WordOrNumber(token).Some?
    ensures DecodeAll(token).Some?
  {
    var v := WordOrNumber(token).value;
    if v.Num? {
      NumberExact(token, v.number);
      NumberDecodes(v.number);
    } else {
      AsciiDecodes(token);
    }
  }

  method IsScalar(token: seq<byte>) returns (ok: bool)
    ensures ok <==> WordOrNumber(token).Some?
  {
    if DecodeAll(token) == None {
      if WordOrNumber(token).Some? { TokensDecode(token); }
      return false;
    }
    if token == TRUE_WORD || token == FALSE_WORD || token == NULL_WORD {
      return true;
    }
    ok := CheckNumber(token);
  }

  /** The end of a word or number. */
  method ScalarEnd(b: seq<byte>, i: nat) returns (end: Option<nat>)
    requires i <= |b|
    ensures Stops(end, b, ScanToken(b[i..])) && (end.Some? ==> i <= end.value)
  {
    var e := TokenEnd(b, i);
    assert b[i..e] == b[i..][..e - i] && b[e..] == b[i..][e - i..];
    var ok := IsScalar(b[i..e]);
    end := if ok then Some(e) else None;
  }

  /** The end of a string literal. */
  method LiteralEnd(b: seq<byte>, i: nat) returns (end: Option<nat>)
    requires i < |b|
    ensures Stops(end, b, ScanLiteral(b[i..])) && (end.Some? ==> i <= end.value)
  {
    var e := SkipString(b, i);
    assert b[i..][1..] == b[i + 1..];
    assert b[i..e] == b[i..][..e - i] && b[e..] == b[i..][e - i..];
    var decoded := DecodeJsonString(b[i..e]);
    end := if decoded == None then None else Some(e);
  }

  /** The exclusive end of the value at `i`, if it is well formed within the bounds. */
  method ValueEnd(b: seq<byte>, i: nat, depth: nat) returns (end: Option<nat>)
    requires i <= |b|
    ensures Stops(end, b, ScanValue(b[i..], depth))
    ensures end.Some? ==> i <= end.value
    decreases |b| - i, 0
  {
    if depth > MAX_DEPTH || i == |b| {
      return None;
    }
    if b[i] == QUOTE {
      end := LiteralEnd(b, i);
    } else if b[i] == OPEN_BRACE || b[i] == OPEN_BRACKET {
      assert b[i..][1..] == b[i + 1..];
      end := InsideEnd(b, i + 1, b[i] == OPEN_BRACE, depth);
    } else {
      end := ScalarEnd(b, i);
    }
  }

  /** The end of a container, from behind its opening bracket on. */
  method InsideEnd(b: seq<byte>, i: nat, braces: bool, depth: nat) returns (end: Option<nat>)
    requires i <= |b|
    ensures Stops(end, b, ScanInside(Trim(b[i..]), braces, depth))
    ensures end.Some? ==> i <= end.value
    decreases |b| - i, 5
  {
    var j := SkipWs(b, i);
    if j < |b| && b[j] == Close(braces) {
      assert b[j..][1..] == b[j + 1..];
      return Some(j + 1);
    }
    end := EntriesEnd(b, j, braces, depth);
  }

  /** The name at `i` and the place behind it. */
  method NameEnd(b: seq<byte>, i: nat, depth: nat) returns (end: Option<nat>, name: text)
    requires i < |b| && b[i] == QUOTE
    ensures depth >= MAX_DEPTH ==> end == None
    ensures depth < MAX_DEPTH ==> Stops(end, b, ScanLiteral(b[i..]))
    ensures end.Some? ==> i <= end.value && ScanLiteral(b[i..]).Found? && name == Meaning(ScanLiteral(b[i..]).value)
    decreases |b| - i, 1
  {
    end := ValueEnd(b, i, depth + 1);
    name := [];
    if end.Some? {
      LiteralSound(b[i..]);
      SpellingComplete(ScanLiteral(b[i..]).value);
      assert b[i..] == b[i..end.value] + b[end.value..];
      assert b[i..end.value] == Literal(ScanLiteral(b[i..]).value);
      var decoded := DecodeJsonString(b[i..end.value]);
      name := decoded.value;
    }
  }

  /** The colon behind a name, and the white space around it. */
  method ColonEnd(b: seq<byte>, i: nat, ghost name: seq<Piece>) returns (end: Option<nat>)
    requires i <= |b| && AllOk(name)
    ensures Stops(end, b, ScanColon(name, b[i..])) && (end.Some? ==> i <= end.value)
  {
    var j := SkipWs(b, i);
    if j == |b| || b[j] != COLON {
      return None;
    }
    assert b[j..][1..] == b[j + 1..];
    j := SkipWs(b, j + 1);
    end := Some(j);
  }

  /** The place behind the name and colon of a member, and the names seen with its own. */
  method LabelEnd(b: seq<byte>, i: nat, depth: nat, keys: set<text>) returns (end: Option<nat>, keys': set<text>)
    requires i <= |b|
    ensures depth >= MAX_DEPTH ==> end == None
    ensures depth < MAX_DEPTH ==> match ScanLabel(b[i..])
      case NoMatch => end == None
      case Found(tag, rest) =>
        if LabelNames(tag) !! keys then
          end.Some? && i <= end.value <= |b| && b[end.value..] == rest && keys' == keys + LabelNames(tag)
        else end == None
    decreases |b| - i, 2
  {
    keys' := keys;
    if i == |b| || b[i] != QUOTE {
      return None, keys;
    }
    var keyEnd, name := NameEnd(b, i, depth);
    if keyEnd == None || name in keys {
      return None, keys;
    }
    end := ColonEnd(b, keyEnd.value, ScanLiteral(b[i..]).value);
    keys' := keys + {name};
  }

  ghost predicate SameRest(p: Scan<Entries, byte>, q: Scan<Entries, byte>)
  {
    if p.NoMatch? then q.NoMatch? else q.Found? && p.rest == q.rest
  }

  /** A container at the depth bound can only be empty. */
  lemma TooDeep(s: seq<byte>, braces: bool, depth: nat, seen: set<text>)
    requires depth >= MAX_DEPTH
    ensures ScanEntries(s, braces, depth, seen) == NoMatch
  {
  }

  datatype Round = Done(end: nat) | Again(from: nat, names: set<text>) | Malformed

  /** The entry at `i` and what follows its value: the end, or where the next entry starts. */
  method EntryEnd(b: seq<byte>, i: nat, braces: bool, depth: nat, keys: set<text>) returns (r: Round)
    requires i <= |b|
    ensures var goal := ScanEntries(b[i..], braces, depth, keys);
      match r
      case Done(end) => i <= end <= |b| && goal.Found? && goal.rest == b[end..]
      case Again(j, names) => i < j <= |b| && SameRest(ScanEntries(b[j..], braces, depth, names), goal)
      case Malformed => goal.NoMatch?
    decreases |b| - i, 3
  {
    if depth >= MAX_DEPTH { TooDeep(b[i..], braces, depth, keys); }
    var j, names := i, keys;
    if braces {
      var k;
      k, names := LabelEnd(b, i, depth, keys);
      if k == None {
        return Malformed;
      }
      j := k.value;
    }
    ghost var tag := ScanTag(b[i..], braces).value;
    var v := ValueEnd(b, j, depth + 1);
    if v == None {
      return Malformed;
    }
    ghost var value := ScanValue(b[j..], depth + 1).value;
    assert names == keys + LabelNames(tag);
    r := MoreEnd(b, v.value, braces, depth, names, tag, value);
  }

  /** What the first byte behind the white space decides. */
  lemma MoreCases(tag: Label, value: Json, u: seq<byte>, t: seq<byte>, braces: bool, depth: nat, names: set<text>)
    requires t == Trim(u)
    ensures var goal := ScanMore(tag, value, u, braces, depth, names);
      if t == [] then goal == NoMatch
      else if t[0] == Close(braces) then goal.Found? && goal.rest == t[1..]
      else if t[0] != COMMA then goal == NoMatch
      else SameRest(ScanEntries(Trim(t[1..]), braces, depth, names), goal)
  {
  }

  lemma MoreAt(b: seq<byte>, i: nat, j: nat, tag: Label, value: Json, braces: bool, depth: nat, names: set<text>)
    requires i <= |b| && j <= |b| && b[j..] == Trim(b[i..])
    ensures var goal := ScanMore(tag, value, b[i..], braces, depth, names);
      if j == |b| then goal == NoMatch
      else if b[j] == Close(braces) then goal.Found? && goal.rest == b[j + 1..]
      else if b[j] != COMMA then goal == NoMatch
      else SameRest(ScanEntries(Trim(b[j + 1..]), braces, depth, names), goal)
  {
    MoreCases(tag, value, b[i..], b[j..], braces, depth, names);
    if j < |b| { assert b[j..][1..] == b[j + 1..]; }
  }

  /** What follows the value of an entry. */
  method MoreEnd(b: seq<byte>, i: nat, braces: bool, depth: nat, names: set<text>, ghost tag: Label, ghost value: Json)
    returns (r: Round)
    requires i <= |b|
    ensures var goal := ScanMore(tag, value, b[i..], braces, depth, names);
      match r
      case Done(end) => i <= end <= |b| && goal.Found? && goal.rest == b[end..]
      case Again(j, names') =>
        i < j <= |b| && names' == names && SameRest(ScanEntries(b[j..], braces, depth, names), goal)
      case Malformed => goal.NoMatch?
  {
    var j := SkipWs(b, i);
    MoreAt(b, i, j, tag, value, braces, depth, names);
    if j == |b| {
      return Malformed;
    }
    if b[j] == Close(braces) {
      return Done(j + 1);
    }
    if b[j] != COMMA {
      return Malformed;
    }
    j := SkipWs(b, j + 1);
    r := Again(j, names);
  }

  /** The end of a container, from its first entry on. */
  method EntriesEnd(b: seq<byte>, i: nat, braces: bool, depth: nat) returns (end: Option<nat>)
    requires i <= |b|
    ensures Stops(end, b, ScanEntries(b[i..], braces, depth, {}))
    ensures end.Some? ==> i <= end.value
    decreases |b| - i, 4
  {
    var j, keys := i, {};
    while true
      invariant i <= j <= |b|
      invariant SameRest(ScanEntries(b[j..], braces, depth, keys), ScanEntries(b[i..], braces, depth, {}))
      decreases |b| - j
    {
      var round := EntryEnd(b, j, braces, depth, keys);
      match round
      case Done(e) => return Some(e);
      case Malformed => return None;
      case Again(k, names) => j, keys := k, names;
    }
  }

  /** Whether a text is a complete object within the bounds. */
  method IsValidObject(b: seq<byte>) returns (ok: bool)
    ensures ok <==> ParseObject(b).Some?
  {
    assert b[0..] == b;
    var start := SkipWs(b, 0);
    if start == |b| || b[start] != OPEN_BRACE {
      return false;
    }
    var end := ValueEnd(b, start, 0);
    if end == None {
      return false;
    }
    var k := SkipWs(b, end.value);
    ok := k == |b|;
  }

  /** The exclusive end of a value; a malformed one extends to the end of the text. */
  method SkipValue(b: seq<byte>, i: nat) returns (end: nat)
    requires i <= |b|
    ensures i <= end <= |b|
    ensures match ScanValue(b[i..], 0)
      case NoMatch => end == |b|
      case Found(_, rest) => b[end..] == rest
  {
    var e := ValueEnd(b, i, 0);
    end := if e == None then |b| else e.value;
  }

  // ---- Field lookup ----

  /** The raw text of the member called `key`. */
  function Field(b: seq<byte>, key: text): Option<seq<byte>>
  {
    match ParseObject(b)
    case None => None
    case Some(v) =>
      ParseObjectSound(b, v); ObjectsAreLabelled(v.entries, 0, {});
      match Lookup(v.entries, key)
      case None => None
      case Some(m) => Some(Print(m))
  }

  /**
    On a valid object the lookup finds a value exactly when the object has a member of that
    decoded name; the member is then the only one, and its raw text is returned.
   */
  lemma FieldExact(b: seq<byte>, v: Json, key: text, raw: seq<byte>)
    requires ParseObject(b) == Some(v)
    ensures IsObject(v) && Labelled(v.entries)
    ensures Field(b, key) == None <==> forall i :: 0 <= i < |Members(v.entries)| ==> Members(v.entries)[i].0 != key
    ensures Field(b, key) == Some(raw) ==>
      exists i :: 0 <= i < |Members(v.entries)|
        && Members(v.entries)[i].0 == key && Print(Members(v.entries)[i].1) == raw
    ensures forall i, j :: 0 <= i < j < |Members(v.entries)| ==> Members(v.entries)[i].0 != Members(v.entries)[j].0
  {
    ParseObjectSound(b, v);
    ObjectsAreLabelled(v.entries, 0, {});
    var found := Lookup(v.entries, key);
    LookupExact(v.entries, key, if found.Some? then found.value else v, 0, {});
    NamesDiffer(v.entries, 0, {});
  }

  // Reading again what has been found valid: the error exits of these steps cannot be taken.

  method LiteralAt(b: seq<byte>, i: nat, ghost ps: seq<Piece>, ghost rest: seq<byte>) returns (name: text, k: nat)
    requires i <= |b| && AllOk(ps) && b[i..] == Literal(ps) + rest
    ensures name == Meaning(ps) && i < k <= |b| && b[k..] == rest
  {
    LiteralComplete(ps, rest);
    assert b[i] == QUOTE;
    var end := ValueEnd(b, i, 1);
    k := end.value;
    assert b[i..k] == Literal(ps) by { assert b[i..] == b[i..k] + b[k..]; }
    SpellingComplete(ps);
    var decoded := DecodeJsonString(b[i..k]);
    name := decoded.value;
  }

  lemma ColonThen(after: seq<byte>, rest: seq<byte>)
    requires AllWs(after) && rest != [] && !IsWs(rest[0])
    ensures ([COLON] + (after + rest))[1..] == after + rest && Trim(after + rest) == rest
  {
    TrimWs(after, rest);
  }

  method ColonAt(b: seq<byte>, i: nat, ghost before: seq<byte>, ghost after: seq<byte>, ghost rest: seq<byte>)
    returns (k: nat)
    requires i <= |b| && AllWs(before) && AllWs(after) && rest != [] && !IsWs(rest[0])
    requires b[i..] == before + ([COLON] + (after + rest))
    ensures i < k <= |b| && b[k..] == rest
  {
    ghost var t := [COLON] + (after + rest);
    TrimWs(before, t);
    ColonThen(after, rest);
    k := SkipWs(b, i);
    assert b[k..] == t;
    assert b[k] == COLON && b[k + 1..] == t[1..];
    k := SkipWs(b, k + 1);
  }

  method ValueAt(b: seq<byte>, i: nat, ghost value: Json, ghost rest: seq<byte>) returns (k: nat)
    requires i <= |b| && JsonOk(value, 1) && Ends(value, rest) && b[i..] == Print(value) + rest
    ensures i <= k <= |b| && b[i..k] == Print(value) && b[k..] == rest
  {
    ScanValueComplete(value, 1, rest);
    var end := ValueEnd(b, i, 1);
    k := end.value;
    assert b[i..] == b[i..k] + b[k..];
  }

  /** A comma stands behind a value exactly when more entries follow. */
  lemma CommaMeansMore(sep: seq<byte>, last: bool, text: seq<byte>, tail: seq<byte>)
    requires text != [] && !IsWs(text[0]) && (last ==> text[0] == CLOSE_BRACE)
    ensures var u := Continued(sep, last, text) + tail;
      && u != [] && !IsWs(u[0]) && (u[0] == COMMA <==> !last)
      && (text + tail) != [] && !IsWs((text + tail)[0])
      && (if last then u == text + tail else u[1..] == sep + (text + tail))
  {
    if !last {
      Assoc([COMMA], sep, text);
      assert ([COMMA] + (sep + text) + tail)[1..] == sep + text + tail;
    }
  }

  method NextAt(b: seq<byte>, i: nat, ghost gap: seq<byte>, ghost sep: seq<byte>, ghost more: Entries,
                ghost seen: set<text>, ghost tail: seq<byte>)
    returns (k: nat)
    requires i <= |b| && AllWs(gap) && AllWs(sep) && EntriesOk(more, true, 0, seen)
    requires b[i..] == gap + (Continued(sep, more == End, PrintEntries(more, true)) + tail)
    ensures i <= k <= |b| && b[k..] == PrintEntries(more, true) + tail
  {
    ghost var text := PrintEntries(more, true);
    ghost var u := Continued(sep, more == End, text) + tail;
    EntriesStart(more, true, 0, seen);
    CommaMeansMore(sep, more == End, text, tail);
    TrimWs(gap, u);
    k := SkipWs(b, i);
    assert b[k] == u[0];
    if b[k] == COMMA {
      assert b[k + 1..] == b[k..][1..];
      TrimWs(sep, text + tail);
      k := SkipWs(b, k + 1);
    }
  }

  lemma EntrySplit(es: Entries, tail: seq<byte>)
    requires es.Entry? && es.tag.Label?
    ensures
      var behind := Continued(es.sep, es.more == End, PrintEntries(es.more, true));
      PrintEntries(es, true) + tail ==
        Literal(es.tag.name)
        + (es.tag.before + ([COLON] + (es.tag.after + (Print(es.value) + (es.gap + (behind + tail))))))
  {
    var behind := Continued(es.sep, es.more == End, PrintEntries(es.more, true));
    Assoc(LabelText(es.tag), Print(es.value) + (es.gap + behind), tail);
    Assoc(Print(es.value), es.gap + behind, tail);
    Assoc(es.gap, behind, tail);
    LabelSplit(es.tag.name, es.tag.before, es.tag.after, Print(es.value) + (es.gap + (behind + tail)));
  }

  /** The next member of an object known to be valid: its name, where its value lies, and what is next. */
  method ReadMember(b: seq<byte>, i: nat, ghost es: Entries, ghost seen: set<text>, ghost tail: seq<byte>)
    returns (name: text, from: nat, to: nat, next: nat)
    requires i <= |b| && es.Entry? && EntriesOk(es, true, 0, seen)
    requires b[i..] == PrintEntries(es, true) + tail
    ensures name == Meaning(es.tag.name) && i < next <= |b|
    ensures from <= to <= |b| && b[from..to] == Print(es.value)
    ensures b[next..] == PrintEntries(es.more, true) + tail
  {
    ghost var after := es.gap + (Continued(es.sep, es.more == End, PrintEntries(es.more, true)) + tail);
    ghost var rest := Print(es.value) + after;
    EntrySplit(es, tail);
    PrintStarts(es.value, 1);
    AfterValue(es, true, 0, seen, tail);
    Assoc(es.gap, Continued(es.sep, es.more == End, PrintEntries(es.more, true)), tail);
    var k;
    name, k := LiteralAt(b, i, es.tag.name, es.tag.before + ([COLON] + (es.tag.after + rest)));
    from := ColonAt(b, k, es.tag.before, es.tag.after, rest);
    to := ValueAt(b, from, es.value, after);
    next := NextAt(b, to, es.gap, es.sep, es.more, seen + LabelNames(es.tag), tail);
  }

  lemma Inside(lead: seq<byte>, text: seq<byte>, tail: seq<byte>)
    ensures ([OPEN_BRACE] + lead + text + tail)[1..] == lead + (text + tail)
  {
  }

  /** Where the members of a valid object start. */
  method FirstMember(b: seq<byte>, start: nat, ghost v: Json, ghost tail: seq<byte>) returns (i: nat)
    requires start < |b| && IsObject(v) && b[start..] == Print(v) + tail
    ensures start < i < |b| && b[i..] == PrintEntries(v.entries, true) + tail
  {
    ghost var text := PrintEntries(v.entries, true);
    Inside(v.lead, text, tail);
    assert b[start + 1..] == b[start..][1..];
    EntriesStart(v.entries, true, 0, {});
    TrimWs(v.lead, text + tail);
    i := SkipWs(b, start + 1);
  }

  /** Scan the members of a valid object for `key`. */
  method FindMember(b: seq<byte>, start: nat, key: text, ghost v: Json, ghost tail: seq<byte>)
    returns (found: Option<seq<byte>>)
    requires start < |b| && IsObject(v) && Labelled(v.entries) && b[start..] == Print(v) + tail
    ensures found == match Lookup(v.entries, key) case None => None case Some(m) => Some(Print(m))
  {
    ghost var es, seen, goal := v.entries, {}, Lookup(v.entries, key);
    var i := FirstMember(b, start, v, tail);
    EntriesStart(es, true, 0, seen);
    assert b[i..][0] == PrintEntries(es, true)[0];
    found := None;
    while b[i] != CLOSE_BRACE
      invariant i < |b| && EntriesOk(es, true, 0, seen) && Labelled(es)
      invariant b[i..] == PrintEntries(es, true) + tail
      invariant b[i] == CLOSE_BRACE <==> es == End
      invariant found == None ==> Lookup(es, key) == goal
      invariant found.Some? ==> key in seen && Lookup(es, key) == None && goal.Some? && found.value == Print(goal.value)
      decreases |b| - i
    {
      var name, from, to, next := ReadMember(b, i, es, seen, tail);
      if name == key {
        // A second member of that name would be an error; a valid object has none.
        assert found == None;
        LookupSeen(es.more, key, 0, seen + LabelNames(es.tag));
        found := Some(b[from..to]);
      }
      i := next;
      es, seen := es.more, seen + LabelNames(es.tag);
      EntriesStart(es, true, 0, seen);
      assert b[i..][0] == PrintEntries(es, true)[0];
    }
  }

  /** A name already seen does not come again. */
  lemma {:induction false} LookupSeen(es: Entries, key: text, depth: nat, seen: set<text>)
    requires EntriesOk(es, true, depth, seen) && Labelled(es) && key in seen
    ensures Lookup(es, key) == None
  {
    if es.Entry? { LookupSeen(es.more, key, depth, seen + LabelNames(es.tag)); }
  }

  /** Find a member of a complete object. */
  method ObjectField(b: seq<byte>, key: text) returns (r: Option<seq<byte>>)
    ensures r == Field(b, key)
  {
    assert b[0..] == b;
    var start := SkipWs(b, 0);
    if start == |b| || b[start] != OPEN_BRACE {
      return None;
    }
    var end := ValueEnd(b, start, 0);
    if end == None {
      return None;
    }
    var k := SkipWs(b, end.value);
    if k != |b| {
      return None;
    }
    ghost var v := ParseObject(b).value;
    ParseObjectSound(b, v);
    ObjectsAreLabelled(v.entries, 0, {});
    ScanValueSound(b[start..], 0);
    r := FindMember(b, start, key, v, b[end.value..]);
  }
}
