/** The recursive JSON scanner, proved to accept exactly the grammar and to find its values. */
module JsonScan {
  import opened Bits
  import opened Utf8
  import opened JsonStrings
  import opened JsonNumbers
  import opened JsonGrammar

  // ---- White space and tokens ----

  function WsLen(s: seq<byte>): (n: nat)
    ensures n <= |s|
  {
    if s == [] || !IsWs(s[0]) then 0 else 1 + WsLen(s[1..])
  }

  function Trim(s: seq<byte>): (t: seq<byte>)
    ensures |t| <= |s|
  {
    s[WsLen(s)..]
  }

  function Blank(s: seq<byte>): seq<byte>
  {
    s[..WsLen(s)]
  }

  lemma {:induction false} BlankIsWs(s: seq<byte>)
    ensures s == Blank(s) + Trim(s) && AllWs(Blank(s))
    ensures Trim(s) != [] ==> !IsWs(Trim(s)[0])
  {
    if s != [] && IsWs(s[0]) {
      BlankIsWs(s[1..]);
      assert Trim(s) == Trim(s[1..]);
      assert Blank(s) == [s[0]] + Blank(s[1..]);
    }
  }

  lemma {:induction false} TrimWs(ws: seq<byte>, s: seq<byte>)
    requires AllWs(ws) && (s != [] ==> !IsWs(s[0]))
    ensures Blank(ws + s) == ws && Trim(ws + s) == s
  {
    if ws == [] {
      assert ws + s == s;
    } else {
      TrimWs(ws[1..], s);
      assert (ws + s)[1..] == ws[1..] + s;
      assert WsLen(ws + s) == 1 + WsLen(ws[1..] + s);
      assert Blank(ws + s) == [ws[0]] + Blank(ws[1..] + s);
      assert Trim(ws + s) == Trim(ws[1..] + s);
    }
  }

  /** The length of the token at the front: up to a delimiter. */
  function TokenLen(s: seq<byte>): (n: nat)
    ensures n <= |s|
  {
    if s == [] || IsDelimiter(s[0]) then 0 else 1 + TokenLen(s[1..])
  }

  lemma {:induction false} TokenComplete(t: seq<byte>, rest: seq<byte>)
    requires forall k :: 0 <= k < |t| ==> !IsDelimiter(t[k])
    requires rest != [] ==> IsDelimiter(rest[0])
    ensures TokenLen(t + rest) == |t|
  {
    if t == [] {
      assert t + rest == rest;
    } else {
      assert (t + rest)[1..] == t[1..] + rest;
      TokenComplete(t[1..], rest);
    }
  }

  // ---- The scanner as a function ----

  function WordOrNumber(token: seq<byte>): Option<Json>
  {
    if token == TRUE_WORD || token == FALSE_WORD || token == NULL_WORD then Some(Word(token))
    else
      match NumberOf(token)
      case None => None
      case Some(n) => Some(Num(n))
  }

  function ScanToken(s: seq<byte>): (r: Scan<Json, byte>)
    ensures r.Found? ==> |r.rest| <= |s|
  {
    match WordOrNumber(s[..TokenLen(s)])
    case None => NoMatch
    case Some(v) => Found(v, s[TokenLen(s)..])
  }

  function ScanLiteral(s: seq<byte>): (r: Scan<seq<Piece>, byte>)
    requires s != []
    ensures r.Found? ==> |r.rest| < |s| && AllOk(r.value)
  {
    var n := 1 + Closing(s[1..]);
    match Spelling(s[..n])
    case None => NoMatch
    case Some(ps) => SpellingSound(s[..n], ps); Found(ps, s[n..])
  }

  /** The name and colon of a member. */
  function ScanLabel(s: seq<byte>): (r: Scan<Label, byte>)
    ensures r.Found? ==> |r.rest| < |s| && LabelOk(r.value) && r.value.Label?
  {
    if s == [] || s[0] != QUOTE then NoMatch
    else
      match ScanLiteral(s)
      case NoMatch => NoMatch
      case Found(name, t) => ScanColon(name, t)
  }

  function ScanColon(name: seq<Piece>, t: seq<byte>): (r: Scan<Label, byte>)
    requires AllOk(name)
    ensures r.Found? ==> |r.rest| < |t| && LabelOk(r.value) && r.value.Label?
  {
    var u := Trim(t);
    BlankIsWs(t);
    if u == [] || u[0] != COLON then NoMatch
    else BlankIsWs(u[1..]); Found(Label(name, Blank(t), Blank(u[1..])), Trim(u[1..]))
  }

  function ScanTag(s: seq<byte>, braces: bool): (r: Scan<Label, byte>)
    ensures r.Found? ==> |r.rest| <= |s| && LabelOk(r.value) && r.value.Label? == braces
  {
    if braces then ScanLabel(s) else Found(NoLabel, s)
  }

  /** The value at the front of `s`, nested `depth` deep. */
  function ScanValue(s: seq<byte>, depth: nat): (r: Scan<Json, byte>)
    ensures r.Found? ==> |r.rest| <= |s|
    decreases |s|, 0
  {
    if depth > MAX_DEPTH || s == [] then NoMatch
    else if s[0] == QUOTE then
      match ScanLiteral(s)
      case NoMatch => NoMatch
      case Found(ps, rest) => Found(Str(ps), rest)
    else if s[0] == OPEN_BRACE || s[0] == OPEN_BRACKET then
      var braces := s[0] == OPEN_BRACE;
      match ScanInside(Trim(s[1..]), braces, depth)
      case NoMatch => NoMatch
      case Found(es, rest) => Found(Node(braces, Blank(s[1..]), es), rest)
    else ScanToken(s)
  }

  function ScanInside(s: seq<byte>, braces: bool, depth: nat): (r: Scan<Entries, byte>)
    ensures r.Found? ==> |r.rest| <= |s|
    decreases |s|, 2
  {
    if s != [] && s[0] == Close(braces) then Found(End, s[1..])
    else ScanEntries(s, braces, depth, {})
  }

  /** At least one entry, and the rest up to the closing bracket. */
  function ScanEntries(s: seq<byte>, braces: bool, depth: nat, seen: set<text>): (r: Scan<Entries, byte>)
    ensures r.Found? ==> |r.rest| <= |s| && r.value.Entry?
    decreases |s|, 1
  {
    match ScanTag(s, braces)
    case NoMatch => NoMatch
    case Found(tag, t) =>
      if !(LabelNames(tag) !! seen) then NoMatch
      else
        match ScanValue(t, depth + 1)
        case NoMatch => NoMatch
        case Found(value, u) => ScanMore(tag, value, u, braces, depth, seen + LabelNames(tag))
  }

  /** What follows the value of an entry. */
  function ScanMore(tag: Label, value: Json, u: seq<byte>, braces: bool, depth: nat, seen: set<text>)
    : (r: Scan<Entries, byte>)
    ensures r.Found? ==> |r.rest| <= |u| && r.value.Entry?
    decreases |u|, 0
  {
    var t := Trim(u);
    if t == [] then NoMatch
    else if t[0] == Close(braces) then Found(Entry(tag, value, Blank(u), [], End), t[1..])
    else if t[0] != COMMA then NoMatch
    else
      match ScanEntries(Trim(t[1..]), braces, depth, seen)
      case NoMatch => NoMatch
      case Found(es, rest) => Found(Entry(tag, value, Blank(u), Blank(t[1..]), es), rest)
  }

  // ---- Soundness: what is found is of the grammar, and was written there ----

  lemma LiteralSound(s: seq<byte>)
    requires s != [] && ScanLiteral(s).Found?
    ensures s == Literal(ScanLiteral(s).value) + ScanLiteral(s).rest
  {
    var n := 1 + Closing(s[1..]);
    SpellingSound(s[..n], ScanLiteral(s).value);
    assert s == s[..n] + s[n..];
  }

  lemma ColonSound(name: seq<Piece>, t: seq<byte>)
    requires AllOk(name) && ScanColon(name, t).Found?
    ensures var r := ScanColon(name, t);
      r.value.name == name && t == r.value.before + ([COLON] + (r.value.after + r.rest))
  {
    BlankIsWs(t);
    var u := Trim(t);
    BlankIsWs(u[1..]);
    ColonSplit(t, Blank(t), u, Blank(u[1..]), Trim(u[1..]));
  }

  lemma ColonSplit(t: seq<byte>, before: seq<byte>, u: seq<byte>, after: seq<byte>, rest: seq<byte>)
    requires t == before + u && u != [] && u[0] == COLON && u[1..] == after + rest
    ensures t == before + ([COLON] + (after + rest))
  {
    assert u == [COLON] + u[1..];
  }

  lemma TagSound(s: seq<byte>, braces: bool)
    requires ScanTag(s, braces).Found?
    ensures s == LabelText(ScanTag(s, braces).value) + ScanTag(s, braces).rest
  {
    if braces {
      LiteralSound(s);
      var name, t := ScanLiteral(s).value, ScanLiteral(s).rest;
      ColonSound(name, t);
      var r := ScanColon(name, t);
      LabelSplit(name, r.value.before, r.value.after, r.rest);
    }
  }

  lemma LabelSplit(name: seq<Piece>, before: seq<byte>, after: seq<byte>, rest: seq<byte>)
    ensures LabelText(Label(name, before, after)) + rest == Literal(name) + (before + ([COLON] + (after + rest)))
  {
    var l := Literal(name);
    Assoc(l + before + [COLON], after, rest);
    Assoc(l + before, [COLON], after + rest);
    Assoc(l, before, [COLON] + (after + rest));
  }

  lemma TokenSound(s: seq<byte>)
    requires ScanToken(s).Found?
    ensures var r := ScanToken(s);
      (r.value.Word? || r.value.Num?) && JsonOk(r.value, 0) && s == Print(r.value) + r.rest
  {
    var token, v := s[..TokenLen(s)], ScanToken(s).value;
    if v.Num? { NumberExact(token, v.number); }
    assert s == token + s[TokenLen(s)..];
  }

  lemma {:induction false} ScanValueSound(s: seq<byte>, depth: nat)
    requires ScanValue(s, depth).Found?
    ensures var r := ScanValue(s, depth); JsonOk(r.value, depth) && s == Print(r.value) + r.rest
    decreases |s|, 0
  {
    var r := ScanValue(s, depth);
    if s[0] == QUOTE {
      LiteralSound(s);
    } else if s[0] == OPEN_BRACE || s[0] == OPEN_BRACKET {
      var braces := s[0] == OPEN_BRACE;
      var t := Trim(s[1..]);
      ScanInsideSound(t, braces, depth);
      BlankIsWs(s[1..]);
      var es := ScanInside(t, braces, depth).value;
      assert s == [Open(braces)] + Blank(s[1..]) + t;
      Assoc([Open(braces)] + Blank(s[1..]), PrintEntries(es, braces), r.rest);
    } else {
      TokenSound(s);
    }
  }

  lemma {:induction false} ScanInsideSound(s: seq<byte>, braces: bool, depth: nat)
    requires ScanInside(s, braces, depth).Found?
    ensures var r := ScanInside(s, braces, depth);
      EntriesOk(r.value, braces, depth, {}) && s == PrintEntries(r.value, braces) + r.rest
    decreases |s|, 2
  {
    if s == [] || s[0] != Close(braces) {
      ScanEntriesSound(s, braces, depth, {});
    }
  }

  lemma {:induction false} ScanEntriesSound(s: seq<byte>, braces: bool, depth: nat, seen: set<text>)
    requires ScanEntries(s, braces, depth, seen).Found?
    ensures var r := ScanEntries(s, braces, depth, seen);
      EntriesOk(r.value, braces, depth, seen) && s == PrintEntries(r.value, braces) + r.rest
    decreases |s|, 1
  {
    var tag, t := ScanTag(s, braces).value, ScanTag(s, braces).rest;
    TagSound(s, braces);
    var value, u := ScanValue(t, depth + 1).value, ScanValue(t, depth + 1).rest;
    ScanValueSound(t, depth + 1);
    ScanMoreSound(tag, value, u, braces, depth, seen + LabelNames(tag));
    var es, rest := ScanEntries(s, braces, depth, seen).value, ScanEntries(s, braces, depth, seen).rest;
    var more := es.gap + Continued(es.sep, es.more == End, PrintEntries(es.more, braces));
    Assoc(Print(value), more, rest);
    Assoc(LabelText(tag), Print(value) + more, rest);
  }

  /** `es` is an entry with the given tag and value, and what follows its value is written at `u`. */
  ghost predicate Continues(es: Entries, tag: Label, value: Json, u: seq<byte>, rest: seq<byte>,
                            braces: bool, depth: nat, seen: set<text>)
  {
    && es.Entry? && es.tag == tag && es.value == value
    && AllWs(es.gap) && AllWs(es.sep) && (es.more == End ==> es.sep == [])
    && EntriesOk(es.more, braces, depth, seen)
    && u == (es.gap + Continued(es.sep, es.more == End, PrintEntries(es.more, braces))) + rest
  }

  lemma ScanMoreCases(tag: Label, value: Json, u: seq<byte>, braces: bool, depth: nat, seen: set<text>)
    returns (gap: seq<byte>, t: seq<byte>, sep: seq<byte>, v: seq<byte>)
    requires ScanMore(tag, value, u, braces, depth, seen).Found?
    ensures AllWs(gap) && u == gap + t && t != []
    ensures t[0] == Close(braces) ==>
      ScanMore(tag, value, u, braces, depth, seen) == Found(Entry(tag, value, gap, [], End), t[1..])
    ensures t[0] != Close(braces) ==>
      && t[0] == COMMA && t[1..] == sep + v && AllWs(sep)
      && |v| < |u| && ScanEntries(v, braces, depth, seen).Found?
      && ScanMore(tag, value, u, braces, depth, seen) ==
         Found(Entry(tag, value, gap, sep, ScanEntries(v, braces, depth, seen).value),
               ScanEntries(v, braces, depth, seen).rest)
  {
    BlankIsWs(u);
    gap, t := Blank(u), Trim(u);
    BlankIsWs(t[1..]);
    sep, v := Blank(t[1..]), Trim(t[1..]);
  }

  lemma {:induction false} ScanMoreSound(tag: Label, value: Json, u: seq<byte>,
                                         braces: bool, depth: nat, seen: set<text>)
    requires ScanMore(tag, value, u, braces, depth, seen).Found?
    ensures
      var r := ScanMore(tag, value, u, braces, depth, seen);
      Continues(r.value, tag, value, u, r.rest, braces, depth, seen)
    decreases |u|, 0
  {
    var gap, t, sep, v := ScanMoreCases(tag, value, u, braces, depth, seen);
    if t[0] == Close(braces) {
      Assoc(gap, [Close(braces)], t[1..]);
    } else {
      ScanEntriesSound(v, braces, depth, seen);
      var r := ScanEntries(v, braces, depth, seen);
      ContinuesByComma(tag, value, u, gap, t, sep, v, r.value, r.rest, braces, depth, seen);
    }
  }

  lemma ContinuesByComma(tag: Label, value: Json, u: seq<byte>, gap: seq<byte>, t: seq<byte>, sep: seq<byte>,
                         v: seq<byte>, es: Entries, rest: seq<byte>, braces: bool, depth: nat, seen: set<text>)
    requires u == gap + t && t != [] && t[0] == COMMA && t[1..] == sep + v && v == PrintEntries(es, braces) + rest
    requires AllWs(gap) && AllWs(sep) && es.Entry? && EntriesOk(es, braces, depth, seen)
    ensures Continues(Entry(tag, value, gap, sep, es), tag, value, u, rest, braces, depth, seen)
  {
    CommaText(u, gap, t, sep, v, PrintEntries(es, braces), rest);
  }

  lemma CommaText(u: seq<byte>, gap: seq<byte>, t: seq<byte>, sep: seq<byte>, v: seq<byte>,
                  es: seq<byte>, rest: seq<byte>)
    requires u == gap + t && t != [] && t[0] == COMMA && t[1..] == sep + v && v == es + rest
    ensures u == (gap + ([COMMA] + sep + es)) + rest
  {
    assert t == [COMMA] + (sep + v);
    Assoc([COMMA], sep, v);
    Assoc([COMMA] + sep, es, rest);
    Assoc(gap, [COMMA] + sep + es, rest);
  }

  // ---- Completeness: whatever the grammar writes is found again ----

  lemma ScanLiteralOf(raw: seq<byte>, rest: seq<byte>, ps: seq<Piece>)
    requires raw != [] && |raw| == 1 + Closing((raw + rest)[1..]) && Spelling(raw) == Some(ps)
    ensures ScanLiteral(raw + rest) == Found(ps, rest)
  {
    var s := raw + rest;
    assert s[..|raw|] == raw && s[|raw|..] == rest;
  }

  lemma ClosingOfLiteral(body: seq<byte>, rest: seq<byte>)
    requires Closing(body + ([QUOTE] + rest)) == |body| + 1
    ensures |[QUOTE] + body + [QUOTE]| == 1 + Closing(([QUOTE] + body + [QUOTE] + rest)[1..])
  {
    assert ([QUOTE] + body + [QUOTE] + rest)[1..] == body + ([QUOTE] + rest);
  }

  lemma LiteralComplete(ps: seq<Piece>, rest: seq<byte>)
    requires AllOk(ps)
    ensures ScanLiteral(Literal(ps) + rest) == Found(ps, rest)
  {
    ClosingLiteral(ps, rest);
    ClosingOfLiteral(EncodeAll(PiecesText(ps)), rest);
    SpellingComplete(ps);
    ScanLiteralOf(Literal(ps), rest, ps);
  }

  lemma ColonComplete(name: seq<Piece>, before: seq<byte>, after: seq<byte>, rest: seq<byte>)
    requires AllOk(name) && AllWs(before) && AllWs(after) && (rest != [] ==> !IsWs(rest[0]))
    ensures ScanColon(name, before + ([COLON] + (after + rest))) == Found(Label(name, before, after), rest)
  {
    var u := [COLON] + (after + rest);
    TrimWs(before, u);
    assert u[1..] == after + rest;
    TrimWs(after, rest);
  }

  lemma TagComplete(tag: Label, rest: seq<byte>)
    requires LabelOk(tag) && (rest != [] ==> !IsWs(rest[0]))
    ensures ScanTag(LabelText(tag) + rest, tag.Label?) == Found(tag, rest)
  {
    match tag
    case NoLabel =>
      assert LabelText(tag) + rest == rest;
    case Label(name, before, after) =>
      var t := before + ([COLON] + (after + rest));
      LabelSplit(name, before, after, rest);
      LiteralComplete(name, t);
      ColonComplete(name, before, after, rest);
  }

  lemma NumberToken(n: Number)
    requires NumberOk(n)
    ensures NumberText(n) != [] && NumberText(n)[0] != 0x74 && NumberText(n)[0] != 0x66 && NumberText(n)[0] != 0x6E
    ensures forall k :: 0 <= k < |NumberText(n)| ==> !IsDelimiter(NumberText(n)[k])
  {
    var t := NumberText(n);
    forall k | 0 <= k < |t| ensures !IsDelimiter(t[k]) {
      NumberChars(n, t[k]);
    }
    assert t[0] in t;
    NumberChars(n, t[0]);
  }

  lemma WordToken(w: seq<byte>)
    requires w == TRUE_WORD || w == FALSE_WORD || w == NULL_WORD
    ensures forall k :: 0 <= k < |w| ==> !IsDelimiter(w[k])
  {
  }

  lemma WordsAndNumbers(v: Json)
    requires (v.Word? || v.Num?) && JsonOk(v, 0)
    ensures WordOrNumber(Print(v)) == Some(v)
    ensures forall k :: 0 <= k < |Print(v)| ==> !IsDelimiter(Print(v)[k])
  {
    if v.Num? {
      NumberToken(v.number);
      NumberExact(Print(v), v.number);
    } else {
      WordToken(v.word);
    }
  }

  lemma ScanTokenComplete(v: Json, rest: seq<byte>)
    requires (v.Word? || v.Num?) && JsonOk(v, 0) && Ends(v, rest)
    ensures ScanToken(Print(v) + rest) == Found(v, rest)
  {
    WordsAndNumbers(v);
    TokenComplete(Print(v), rest);
    var s := Print(v) + rest;
    assert s[..|Print(v)|] == Print(v) && s[|Print(v)|..] == rest;
  }

  lemma ScanNode(braces: bool, lead: seq<byte>, t: seq<byte>, es: Entries, rest: seq<byte>, depth: nat)
    requires depth <= MAX_DEPTH && AllWs(lead) && t != [] && !IsWs(t[0])
    requires ScanInside(t, braces, depth) == Found(es, rest)
    ensures ScanValue([Open(braces)] + lead + t, depth) == Found(Node(braces, lead, es), rest)
  {
    assert ([Open(braces)] + lead + t)[1..] == lead + t;
    TrimWs(lead, t);
  }

  lemma {:induction false} ScanInsideComplete(es: Entries, braces: bool, depth: nat, rest: seq<byte>)
    requires EntriesOk(es, braces, depth, {})
    ensures ScanInside(PrintEntries(es, braces) + rest, braces, depth) == Found(es, rest)
    decreases es, 1
  {
    EntriesStart(es, braces, depth, {});
    if es == End {
      assert ([Close(braces)] + rest)[1..] == rest;
    } else {
      ScanEntriesComplete(es, braces, depth, {}, rest);
    }
  }

  lemma {:induction false} ScanValueComplete(v: Json, depth: nat, rest: seq<byte>)
    requires JsonOk(v, depth) && Ends(v, rest)
    ensures ScanValue(Print(v) + rest, depth) == Found(v, rest)
    decreases v, 0
  {
    PrintStarts(v, depth);
    match v
    case Str(ps) =>
      LiteralComplete(ps, rest);
    case Node(braces, lead, es) =>
      EntriesStart(es, braces, depth, {});
      ScanInsideComplete(es, braces, depth, rest);
      ScanNode(braces, lead, PrintEntries(es, braces) + rest, es, rest, depth);
      Assoc([Open(braces)] + lead, PrintEntries(es, braces), rest);
    case Word(_) =>
      ScanTokenComplete(v, rest);
    case Num(_) =>
      ScanTokenComplete(v, rest);
  }

  lemma {:induction false} ScanEntriesComplete(es: Entries, braces: bool, depth: nat, seen: set<text>, rest: seq<byte>)
    requires es.Entry? && EntriesOk(es, braces, depth, seen)
    ensures ScanEntries(PrintEntries(es, braces) + rest, braces, depth, seen) == Found(es, rest)
    decreases es, 0
  {
    var tail := PrintEntries(es.more, braces);
    var after := es.gap + Continued(es.sep, es.more == End, tail);
    var s := PrintEntries(es, braces) + rest;
    Assoc(LabelText(es.tag), Print(es.value) + after, rest);
    Assoc(Print(es.value), after, rest);
    PrintStarts(es.value, depth + 1);
    TagComplete(es.tag, Print(es.value) + (after + rest));
    AfterValue(es, braces, depth, seen + LabelNames(es.tag), rest);
    ScanValueComplete(es.value, depth + 1, after + rest);
    ScanMoreComplete(es, braces, depth, seen + LabelNames(es.tag), rest);
  }

  /** What stands behind the value of an entry ends the value. */
  lemma AfterValue(es: Entries, braces: bool, depth: nat, seen: set<text>, rest: seq<byte>)
    requires es.Entry? && AllWs(es.gap)
    ensures var after := es.gap + Continued(es.sep, es.more == End, PrintEntries(es.more, braces));
      after + rest != [] && IsDelimiter((after + rest)[0])
  {
  }

  lemma ScanLast(tag: Label, value: Json, gap: seq<byte>, rest: seq<byte>, braces: bool, depth: nat, seen: set<text>)
    requires AllWs(gap)
    ensures ScanMore(tag, value, gap + ([Close(braces)] + rest), braces, depth, seen) ==
            Found(Entry(tag, value, gap, [], End), rest)
  {
    TrimWs(gap, [Close(braces)] + rest);
    assert ([Close(braces)] + rest)[1..] == rest;
  }

  lemma ScanComma(tag: Label, value: Json, gap: seq<byte>, sep: seq<byte>, t: seq<byte>, es: Entries, rest: seq<byte>,
                  braces: bool, depth: nat, seen: set<text>)
    requires AllWs(gap) && AllWs(sep) && t != [] && !IsWs(t[0])
    requires ScanEntries(t, braces, depth, seen) == Found(es, rest)
    ensures ScanMore(tag, value, gap + ([COMMA] + (sep + t)), braces, depth, seen) ==
            Found(Entry(tag, value, gap, sep, es), rest)
  {
    var u := [COMMA] + (sep + t);
    TrimWs(gap, u);
    assert u[1..] == sep + t;
    TrimWs(sep, t);
  }

  lemma {:induction false} ScanMoreComplete(es: Entries, braces: bool, depth: nat, seen: set<text>, rest: seq<byte>)
    requires es.Entry? && AllWs(es.gap) && AllWs(es.sep) && (es.more == End ==> es.sep == [])
    requires EntriesOk(es.more, braces, depth, seen)
    ensures
      var u := (es.gap + Continued(es.sep, es.more == End, PrintEntries(es.more, braces))) + rest;
      ScanMore(es.tag, es.value, u, braces, depth, seen) == Found(es, rest)
    decreases es.more, 2
  {
    var tail := PrintEntries(es.more, braces);
    Assoc(es.gap, Continued(es.sep, es.more == End, tail), rest);
    if es.more == End {
      ScanLast(es.tag, es.value, es.gap, rest, braces, depth, seen);
    } else {
      EntriesStart(es.more, braces, depth, seen);
      ScanEntriesComplete(es.more, braces, depth, seen, rest);
      ScanComma(es.tag, es.value, es.gap, es.sep, tail + rest, es.more, rest, braces, depth, seen);
      Assoc([COMMA], es.sep, tail);
      Assoc([COMMA], es.sep + tail, rest);
      Assoc(es.sep, tail, rest);
    }
  }
}
