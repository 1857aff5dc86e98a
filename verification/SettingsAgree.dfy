/** The two JSON readers agree: what the typed parser gets is what the field lookup finds. */
module SettingsAgree {
  import opened Bits
  import opened Utf8
  import opened JsonStrings
  import opened JsonNumbers
  import opened JsonGrammar
  import opened JsonScan
  import opened JsonText
  import opened Settings

  // ---- What a tree means to the tokenizer and to the parser ----

  function Flatten(v: Json): seq<Token>
  {
    match v
    case Word(w) => [WordToken(w)]
    case Num(n) => [NumToken(NumberText(n))]
    case Str(ps) => if AllOk(ps) then [StrToken(Meaning(ps))] else []
    case Node(braces, _, es) => [if braces then BraceOpen else BracketOpen] + FlattenEntries(es, braces)
  }

  function WordToken(w: seq<byte>): Token
  {
    if w == TRUE_WORD then BoolToken(true) else if w == FALSE_WORD then BoolToken(false) else NullToken
  }

  function FlattenEntries(es: Entries, braces: bool): seq<Token>
  {
    match es
    case End => [if braces then BraceClose else BracketClose]
    case Entry(tag, value, _, _, more) =>
      FlattenLabel(tag) + (Flatten(value) + FlattenMore(more == End, FlattenEntries(more, braces)))
  }

  function FlattenMore(last: bool, tail: seq<Token>): seq<Token>
  {
    if last then tail else [Comma] + tail
  }

  function FlattenLabel(tag: Label): seq<Token>
  {
    if tag.Label? && AllOk(tag.name) then [StrToken(Meaning(tag.name)), Colon] else []
  }

  /** The typed value of a tree: nested objects count as null, numbers stay as written. */
  function Typed(v: Json): Value
  {
    match v
    case Word(w) => if w == NULL_WORD then NullValue else BoolValue(w == TRUE_WORD)
    case Num(n) => NumValue(NumberText(n))
    case Str(ps) => if AllOk(ps) then StrValue(Meaning(ps)) else NullValue
    case Node(braces, _, es) => if braces then NullValue else Array(TypedItems(es))
  }

  function TypedItems(es: Entries): seq<Value>
  {
    match es
    case End => []
    case Entry(_, value, _, _, more) => [Typed(value)] + TypedItems(more)
  }

  function TypedMembers(es: Entries, m: map<text, Value>): map<text, Value>
    requires Labelled(es)
  {
    match es
    case End => m
    case Entry(tag, value, _, _, more) => TypedMembers(more, m[Meaning(tag.name) := Typed(value)])
  }

  // ---- The tokenizer flattens the tree ----

  lemma {:induction false} TokensWs(ws: seq<byte>, s: seq<byte>)
    requires AllWs(ws)
    ensures Tokens(ws + s) == Tokens(s)
  {
    if ws == [] {
      assert ws + s == s;
    } else {
      assert (ws + s)[1..] == ws[1..] + s;
      TokensWs(ws[1..], s);
    }
  }

  lemma TokensStep(t: seq<byte>, s: seq<byte>, token: Token)
    requires t != [] && !IsAsciiWs(t[0]) && TokenAt(t + s) == Found(token, s)
    ensures Tokens(t + s) == Then([token], Tokens(s))
  {
  }

  lemma TokensChar(c: byte, s: seq<byte>)
    requires Punctuation(c).Some?
    ensures Tokens([c] + s) == Then([Punctuation(c).value], Tokens(s))
  {
    assert ([c] + s)[1..] == s;
    TokensStep([c], s, Punctuation(c).value);
  }

  lemma TokensLiteral(ps: seq<Piece>, s: seq<byte>)
    requires AllOk(ps)
    ensures Tokens(Literal(ps) + s) == Then([StrToken(Meaning(ps))], Tokens(s))
  {
    LiteralComplete(ps, s);
    TokensStep(Literal(ps), s, StrToken(Meaning(ps)));
  }

  lemma NumberAtFrom(minus: bool, whole: seq<byte>, s: seq<byte>)
    requires whole != [] && IsDigit(whole[0]) && Digits(whole + s) == |whole|
    ensures
      var all := (if minus then [MINUS] else []) + (whole + s);
      NumberAt(all) == NumberFrom(all, |whole| + (if minus then 1 else 0))
  {
    var all := (if minus then [MINUS] else []) + (whole + s);
    assert all[if minus then 1 else 0..] == whole + s;
    assert !minus ==> all[0] == whole[0];
  }

  lemma NumberTextSplit(n: Number, s: seq<byte>)
    ensures NumberText(n) + s == (if n.minus then [MINUS] else []) + (n.whole + (TailText(n.tail) + s))
  {
    Assoc(n.whole, TailText(n.tail), s);
    Assoc([MINUS], UnsignedText(n), s);
    assert [] + (UnsignedText(n) + s) == UnsignedText(n) + s;
  }

  lemma NumberAtComplete(n: Number, s: seq<byte>)
    requires NumberOk(n) && AfterNumber(s)
    ensures NumberAt(NumberText(n) + s) == Found(NumToken(NumberText(n)), s)
  {
    var tail := TailText(n.tail) + s;
    assert !StartsWithDigit(tail) by { TakeTailComplete(n.tail, s); }
    DigitsComplete(n.whole, tail);
    NumberTextSplit(n, s);
    NumberAtFrom(n.minus, n.whole, tail);
    NumberFromComplete(n, s, |n.whole| + (if n.minus then 1 else 0));
  }

  lemma NumberFromComplete(n: Number, s: seq<byte>, k: nat)
    requires NumberOk(n) && AfterNumber(s) && k == |n.whole| + (if n.minus then 1 else 0)
    ensures NumberFrom(NumberText(n) + s, k) == Found(NumToken(NumberText(n)), s)
  {
    var pre := if n.minus then [MINUS] + n.whole else n.whole;
    assert NumberText(n) == pre + TailText(n.tail);
    TakeTailComplete(n.tail, s);
    NumberFromSplit(pre, TailText(n.tail), s, n.tail);
  }

  lemma Dropped(pre: seq<byte>, rest: seq<byte>)
    ensures (pre + rest)[|pre|..] == rest
  {
  }

  lemma NumberFromSplit(pre: seq<byte>, tail: seq<byte>, s: seq<byte>, t: Tail)
    requires pre != [] && TakeTail(tail + s) == Found(t, s)
    ensures NumberFrom(pre + tail + s, |pre|) == Found(NumToken(pre + tail), s)
  {
    Assoc(pre, tail, s);
    Dropped(pre, tail + s);
    NumberFromIs(pre + tail, s, |pre|, t);
  }

  lemma DelimiterAfterNumber(s: seq<byte>)
    requires s != [] ==> IsDelimiter(s[0])
    ensures AfterNumber(s)
  {
  }

  lemma TokensNumber(n: Number, s: seq<byte>)
    requires NumberOk(n) && AfterNumber(s)
    ensures Tokens(NumberText(n) + s) == Then([NumToken(NumberText(n))], Tokens(s))
  {
    NumberAtComplete(n, s);
    var c := NumberText(n)[0];
    assert c == MINUS || IsDigit(c) by { assert c == if n.minus then MINUS else n.whole[0]; }
    assert (NumberText(n) + s)[0] == c;
    TokensStep(NumberText(n), s, NumToken(NumberText(n)));
  }

  lemma TokensWord(w: seq<byte>, s: seq<byte>)
    requires w == TRUE_WORD || w == FALSE_WORD || w == NULL_WORD
    ensures Tokens(w + s) == Then([WordToken(w)], Tokens(s))
  {
    assert w <= w + s && (w + s)[|w|..] == s && (w + s)[0] == w[0];
    assert WordAt(w + s, w, WordToken(w)) == Found(WordToken(w), s);
    TokensStep(w, s, WordToken(w));
  }

  lemma TokensColon(before: seq<byte>, after: seq<byte>, s: seq<byte>)
    requires AllWs(before) && AllWs(after)
    ensures Tokens(before + ([COLON] + (after + s))) == Then([Colon], Tokens(s))
  {
    TokensWs(before, [COLON] + (after + s));
    TokensChar(COLON, after + s);
    TokensWs(after, s);
  }

  lemma TokensLabel(tag: Label, s: seq<byte>)
    requires LabelOk(tag)
    ensures Tokens(LabelText(tag) + s) == Then(FlattenLabel(tag), Tokens(s))
  {
    if tag == NoLabel {
      assert LabelText(tag) + s == s;
      if Tokens(s).Some? { assert [] + Tokens(s).value == Tokens(s).value; }
    } else {
      LabelSplit(tag.name, tag.before, tag.after, s);
      TokensColon(tag.before, tag.after, s);
      TokensLiteral(tag.name, tag.before + ([COLON] + (tag.after + s)));
      ThenThen([StrToken(Meaning(tag.name))], [Colon], Tokens(s));
      assert [StrToken(Meaning(tag.name))] + [Colon] == [StrToken(Meaning(tag.name)), Colon];
    }
  }

  /** The tokens of a written value are those of its tree. */
  lemma {:induction false} TokensOfValue(v: Json, depth: nat, s: seq<byte>)
    requires JsonOk(v, depth) && Ends(v, s)
    ensures Tokens(Print(v) + s) == Then(Flatten(v), Tokens(s))
    decreases v
  {
    match v
    case Word(w) =>
      TokensWord(w, s);
    case Num(n) =>
      DelimiterAfterNumber(s);
      TokensNumber(n, s);
    case Str(ps) =>
      TokensLiteral(ps, s);
    case Node(braces, lead, es) =>
      TokensOfEntries(es, braces, depth, {}, s);
      TokensOpen(braces, lead, PrintEntries(es, braces), s, FlattenEntries(es, braces));
  }

  lemma TokensBracket(braces: bool, u: seq<byte>)
    ensures Tokens([Open(braces)] + u) == Then([if braces then BraceOpen else BracketOpen], Tokens(u))
  {
    TokensChar(Open(braces), u);
  }

  lemma TokensOpen(braces: bool, lead: seq<byte>, text: seq<byte>, s: seq<byte>, flat: seq<Token>)
    requires AllWs(lead) && Tokens(text + s) == Then(flat, Tokens(s))
    ensures Tokens([Open(braces)] + lead + text + s) ==
            Then([if braces then BraceOpen else BracketOpen] + flat, Tokens(s))
  {
    Assoc([Open(braces)], lead, text);
    Assoc([Open(braces)], lead + text, s);
    Assoc(lead, text, s);
    TokensWs(lead, text + s);
    TokensBracket(braces, lead + (text + s));
    ThenThen([if braces then BraceOpen else BracketOpen], flat, Tokens(s));
  }

  lemma {:induction false} TokensOfEntries(es: Entries, braces: bool, depth: nat, seen: set<text>, s: seq<byte>)
    requires EntriesOk(es, braces, depth, seen)
    ensures Tokens(PrintEntries(es, braces) + s) == Then(FlattenEntries(es, braces), Tokens(s))
    decreases es
  {
    if es == End {
      TokensChar(Close(braces), s);
    } else {
      var tail, flat := PrintEntries(es.more, braces), FlattenEntries(es.more, braces);
      var after := Continued(es.sep, es.more == End, tail);
      Assoc(LabelText(es.tag), Print(es.value) + (es.gap + after), s);
      Assoc(Print(es.value), es.gap + after, s);
      Assoc(es.gap, after, s);
      AfterValue(es, braces, depth, seen, s);
      TokensLabel(es.tag, Print(es.value) + (es.gap + (after + s)));
      TokensOfValue(es.value, depth + 1, es.gap + (after + s));
      TokensWs(es.gap, after + s);
      TokensOfEntries(es.more, braces, depth, seen + LabelNames(es.tag), s);
      TokensMore(es.sep, es.more == End, tail, flat, s);
      ThenThen(Flatten(es.value), FlattenMore(es.more == End, flat), Tokens(s));
      ThenThen(FlattenLabel(es.tag), Flatten(es.value) + FlattenMore(es.more == End, flat), Tokens(s));
    }
  }

  lemma TokensMore(sep: seq<byte>, last: bool, tail: seq<byte>, flat: seq<Token>, s: seq<byte>)
    requires AllWs(sep) && Tokens(tail + s) == Then(flat, Tokens(s))
    ensures Tokens(Continued(sep, last, tail) + s) == Then(FlattenMore(last, flat), Tokens(s))
  {
    if !last {
      Assoc([COMMA], sep, tail);
      Assoc([COMMA], sep + tail, s);
      Assoc(sep, tail, s);
      TokensChar(COMMA, sep + (tail + s));
      TokensWs(sep, tail + s);
      ThenThen([Comma], flat, Tokens(s));
    }
  }

  // ---- The parser rebuilds the typed value ----

  lemma {:induction false} ParsesValue(v: Json, depth: nat, us: seq<Token>)
    requires JsonOk(v, depth)
    ensures ParsedValue(Flatten(v) + us) == Found(Typed(v), us)
    decreases v
  {
    var ts := Flatten(v) + us;
    match v
    case Word(_) =>
      assert ts[1..] == us;
    case Num(_) =>
      assert ts[1..] == us;
    case Str(_) =>
      assert ts[1..] == us;
    case Node(braces, _, es) =>
      assert ts[1..] == FlattenEntries(es, braces) + us;
      if braces {
        ObjectsAreLabelled(es, depth, {});
        ParsesObject(es, depth, us);
      } else {
        ParsesArray(es, depth, us);
      }
  }

  lemma {:induction false} ParsesObject(es: Entries, depth: nat, us: seq<Token>)
    requires EntriesOk(es, true, depth, {}) && Labelled(es)
    ensures ParsedObject(FlattenEntries(es, true) + us) == Found(TypedMembers(es, map[]), us)
    decreases es, 1
  {
    var ts := FlattenEntries(es, true) + us;
    if es == End {
      assert ts[1..] == us;
    } else {
      assert ts[0] == StrToken(Meaning(es.tag.name));
      ParsesMembers(es, depth, {}, map[], us);
    }
  }

  lemma MoreTokens(last: bool, flat: seq<Token>, close: Token, us: seq<Token>)
    requires last ==> flat == [close]
    ensures var ts := FlattenMore(last, flat) + us;
      ts != [] && (if last then ts[0] == close && ts[1..] == us else ts[0] == Comma && ts[1..] == flat + us)
  {
  }

  lemma MemberTokens(key: text, flat: seq<Token>, v: Value, rest: seq<Token>, m: map<text, Value>)
    requires ParsedValue(flat + rest) == Found(v, rest) && rest != []
    requires rest[0] == Comma || rest[0] == BraceClose
    ensures ParsedMembers([StrToken(key), Colon] + (flat + rest), m) ==
      if rest[0] == Comma then ParsedMembers(rest[1..], m[key := v]) else Found(m[key := v], rest[1..])
  {
    var ts := [StrToken(key), Colon] + (flat + rest);
    assert ts[2..] == flat + rest;
    MemberEnds(ts, m, v, rest);
  }

  lemma {:induction false} ParsesMembers(es: Entries, depth: nat, seen: set<text>, m: map<text, Value>, us: seq<Token>)
    requires es.Entry? && EntriesOk(es, true, depth, seen) && Labelled(es)
    ensures ParsedMembers(FlattenEntries(es, true) + us, m) == Found(TypedMembers(es, m), us)
    decreases es, 0
  {
    var key, flat := Meaning(es.tag.name), FlattenEntries(es.more, true);
    var more := FlattenMore(es.more == End, flat);
    Assoc([StrToken(key), Colon], Flatten(es.value) + more, us);
    Assoc(Flatten(es.value), more, us);
    ParsesValue(es.value, depth + 1, more + us);
    MoreTokens(es.more == End, flat, BraceClose, us);
    MemberTokens(key, Flatten(es.value), Typed(es.value), more + us, m);
    if es.more != End {
      ParsesMembers(es.more, depth, seen + LabelNames(es.tag), m[key := Typed(es.value)], us);
    }
  }

  lemma {:induction false} ParsesArray(es: Entries, depth: nat, us: seq<Token>)
    requires EntriesOk(es, false, depth, {})
    ensures ParsedArray(FlattenEntries(es, false) + us) == Found(TypedItems(es), us)
    decreases es, 1
  {
    var ts := FlattenEntries(es, false) + us;
    if es == End {
      assert ts[1..] == us;
    } else {
      FlattenStarts(es.value, depth + 1);
      assert ts[0] == Flatten(es.value)[0];
      ParsesItems(es, depth, {}, [], us);
      assert [] + TypedItems(es) == TypedItems(es);
    }
  }

  lemma FlattenStarts(v: Json, depth: nat)
    requires JsonOk(v, depth)
    ensures Flatten(v) != [] && Flatten(v)[0] != BracketClose && Flatten(v)[0] != BraceClose
  {
  }

  lemma ItemTokens(flat: seq<Token>, v: Value, rest: seq<Token>, items: seq<Value>)
    requires ParsedValue(flat + rest) == Found(v, rest) && rest != []
    requires rest[0] == Comma || rest[0] == BracketClose
    ensures ParsedItems(flat + rest, items) ==
      if rest[0] == Comma then ParsedItems(rest[1..], items + [v]) else Found(items + [v], rest[1..])
  {
  }

  lemma {:induction false} ParsesItems(es: Entries, depth: nat, seen: set<text>, items: seq<Value>, us: seq<Token>)
    requires es.Entry? && EntriesOk(es, false, depth, seen)
    ensures ParsedItems(FlattenEntries(es, false) + us, items) == Found(items + TypedItems(es), us)
    decreases es, 0
  {
    var flat := FlattenEntries(es.more, false);
    var more := FlattenMore(es.more == End, flat);
    assert FlattenEntries(es, false) == Flatten(es.value) + more;
    Assoc(Flatten(es.value), more, us);
    ParsesValue(es.value, depth + 1, more + us);
    MoreTokens(es.more == End, flat, BracketClose, us);
    ItemTokens(Flatten(es.value), Typed(es.value), more + us, items);
    if es.more == End {
      assert TypedItems(es) == [Typed(es.value)];
    } else {
      ParsesItems(es.more, depth, seen + LabelNames(es.tag), items + [Typed(es.value)], us);
      Assoc(items, [Typed(es.value)], TypedItems(es.more));
    }
  }

  // ---- Both together ----

  /** The map holds exactly the members, each with its typed value. */
  lemma {:induction false} TypedMembersExact(es: Entries, depth: nat, seen: set<text>, m: map<text, Value>, key: text)
    requires EntriesOk(es, true, depth, seen) && Labelled(es)
    ensures
      var t := TypedMembers(es, m);
      match Lookup(es, key)
      case Some(v) => key in t && t[key] == Typed(v)
      case None => (key in t <==> key in m) && (key in m ==> t[key] == m[key])
    decreases es
  {
    if es.Entry? {
      var name := Meaning(es.tag.name);
      TypedMembersExact(es.more, depth, seen + LabelNames(es.tag), m[name := Typed(es.value)], key);
      if name == key {
        LookupSeen(es.more, key, depth, seen + LabelNames(es.tag));
      }
    }
  }

  lemma TokensThenWs(v: Json, after: seq<byte>)
    requires JsonOk(v, 0) && AllWs(after)
    ensures Tokens(Print(v) + after) == Some(Flatten(v))
  {
    TokensOfValue(v, 0, after);
    TokensWs(after, []);
    assert after + [] == after;
    assert Flatten(v) + [] == Flatten(v);
  }

  lemma TokensOfObject(b: seq<byte>, v: Json)
    requires ParseObject(b) == Some(v)
    ensures IsObject(v) && Tokens(b) == Some(Flatten(v))
  {
    ParseObjectSound(b, v);
    var before, after :| AllWs(before) && AllWs(after) && b == before + (Print(v) + after);
    TokensWs(before, Print(v) + after);
    TokensThenWs(v, after);
  }

  /** The typed members of a complete object. */
  function TypedObject(b: seq<byte>): Option<map<text, Value>>
  {
    match ParseObject(b)
    case None => None
    case Some(v) => ParseObjectSound(b, v); ObjectsAreLabelled(v.entries, 0, {}); Some(TypedMembers(v.entries, map[]))
  }

  /** The value of a raw field, read on its own. */
  function ReadRaw(raw: seq<byte>): Option<Value>
  {
    match ScanValue(raw, 1)
    case NoMatch => None
    case Found(v, rest) => if rest == [] then Some(Typed(v)) else None
  }

  /**
    The readers agree on every name: the map has it exactly when the lookup finds it, with the
    value that the raw text found there stands for.
   */
  lemma ReadersAgree(b: seq<byte>, key: text)
    requires ParseObject(b).Some?
    ensures TypedObject(b).Some?
    ensures key in TypedObject(b).value <==> Field(b, key).Some?
    ensures key in TypedObject(b).value ==> ReadRaw(Field(b, key).value) == Some(TypedObject(b).value[key])
  {
    var v := ParseObject(b).value;
    ParseObjectSound(b, v);
    ObjectsAreLabelled(v.entries, 0, {});
    TypedMembersExact(v.entries, 0, {}, map[], key);
    if Lookup(v.entries, key).Some? {
      var w := Lookup(v.entries, key).value;
      LookupOk(v.entries, key, 0, {});
      ScanValueComplete(w, 1, []);
      assert Print(w) + [] == Print(w);
    }
  }

  // ---- Loading ----

  const MAX_CONFIG_BYTES: nat := 1024 * 1024

  datatype Load = TooLarge | Invalid | Loaded(members: map<text, Value>)

  /** Read a configuration text: validate, tokenize, parse. */
  method ApplyJsonBytes(b: seq<byte>) returns (r: Load)
    ensures r == if |b| > 1048576 then TooLarge
      else match TypedObject(b) case None => Invalid case Some(m) => Loaded(m)
  {
    if |b| > MAX_CONFIG_BYTES {
      return TooLarge;
    }
    var valid := IsValidObject(b);
    if !valid {
      return Invalid;
    }
    ghost var v := ParseObject(b).value;
    TokensOfObject(b, v);
    ObjectsAreLabelled(v.entries, 0, {});
    ParsesObject(v.entries, 0, []);
    // Neither step can fail on a valid object.
    var tokens := Tokenize(b);
    var parser := new Parser(tokens.value);
    assert FlattenEntries(v.entries, true) + [] == parser.Ahead()[1..];
    var m := parser.ParseObject();
    r := Loaded(m.value);
  }
}
