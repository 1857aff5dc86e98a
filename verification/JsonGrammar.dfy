/**
  JSON documents as concrete syntax trees (sections 2 to 5 of RFC 8259): how each is written,
  and which are within the bounds on depth and duplicate names.
 */
module JsonGrammar {
  import opened Bits
  import opened Utf8
  import opened JsonStrings
  import opened JsonNumbers

  const OPEN_BRACE: byte := 0x7B
  const CLOSE_BRACE: byte := 0x7D
  const OPEN_BRACKET: byte := 0x5B
  const CLOSE_BRACKET: byte := 0x5D
  const COLON: byte := 0x3A
  const COMMA: byte := 0x2C

  const TRUE_WORD: seq<byte> := [0x74, 0x72, 0x75, 0x65]
  const FALSE_WORD: seq<byte> := [0x66, 0x61, 0x6C, 0x73, 0x65]
  const NULL_WORD: seq<byte> := [0x6E, 0x75, 0x6C, 0x6C]

  const MAX_DEPTH: nat := 32

  /** A value, with the white space inside it. */
  datatype Json =
    | Word(word: seq<byte>)
    | Num(number: Number)
    | Str(pieces: seq<Piece>)
    | Node(braces: bool, lead: seq<byte>, entries: Entries)

  /**
    What stands between brackets: each entry has the white space behind its value and, when
    more follow, the white space behind its comma.
   */
  datatype Entries = End | Entry(tag: Label, value: Json, gap: seq<byte>, sep: seq<byte>, more: Entries)

  /** The name of a member, with the white space around its colon. */
  datatype Label = NoLabel | Label(name: seq<Piece>, before: seq<byte>, after: seq<byte>)

  function Open(braces: bool): byte
  {
    if braces then OPEN_BRACE else OPEN_BRACKET
  }

  function Close(braces: bool): byte
  {
    if braces then CLOSE_BRACE else CLOSE_BRACKET
  }

  // ---- How a tree is written ----

  function LabelText(l: Label): seq<byte>
  {
    match l
    case NoLabel => []
    case Label(name, before, after) => Literal(name) + before + [COLON] + after
  }

  function Print(v: Json): seq<byte>
  {
    match v
    case Word(w) => w
    case Num(n) => NumberText(n)
    case Str(ps) => Literal(ps)
    case Node(braces, lead, es) => [Open(braces)] + lead + PrintEntries(es, braces)
  }

  /** Entries up to and including the closing bracket. */
  function PrintEntries(es: Entries, braces: bool): seq<byte>
  {
    match es
    case End => [Close(braces)]
    case Entry(tag, value, gap, sep, more) =>
      LabelText(tag) + (Print(value) + (gap + Continued(sep, more == End, PrintEntries(more, braces))))
  }

  /** The text of further entries, behind a comma when there are some. */
  function Continued(sep: seq<byte>, last: bool, tail: seq<byte>): seq<byte>
  {
    if last then tail else [COMMA] + sep + tail
  }

  // ---- Which trees are well formed ----

  predicate IsWs(c: byte)
  {
    c == 0x20 || c == 0x09 || c == 0x0A || c == 0x0D
  }

  predicate AllWs(s: seq<byte>)
  {
    forall k :: 0 <= k < |s| ==> IsWs(s[k])
  }

  /** The names a label adds to those seen in its object. */
  function LabelNames(l: Label): set<text>
    requires LabelOk(l)
  {
    if l.Label? then {Meaning(l.name)} else {}
  }

  predicate LabelOk(l: Label)
  {
    l.Label? ==> AllOk(l.name) && AllWs(l.before) && AllWs(l.after)
  }

  /** A value of the grammar nested `depth` deep, within the depth bound. */
  predicate JsonOk(v: Json, depth: nat)
    decreases v
  {
    && depth <= MAX_DEPTH
    && match v
       case Word(w) => w == TRUE_WORD || w == FALSE_WORD || w == NULL_WORD
       case Num(n) => NumberOk(n)
       case Str(ps) => AllOk(ps)
       case Node(braces, lead, es) => AllWs(lead) && EntriesOk(es, braces, depth, {})
  }

  /** Entries of a container at `depth`, none of them named like one in `seen` or before it. */
  predicate EntriesOk(es: Entries, braces: bool, depth: nat, seen: set<text>)
    decreases es
  {
    match es
    case End => true
    case Entry(tag, value, gap, sep, more) =>
      && tag.Label? == braces && LabelOk(tag) && LabelNames(tag) !! seen
      && JsonOk(value, depth + 1)
      && AllWs(gap) && AllWs(sep) && (more == End ==> sep == [])
      && EntriesOk(more, braces, depth, seen + LabelNames(tag))
  }

  /** The members of an object, as (decoded name, raw value) in the order written. */
  function Members(es: Entries): seq<(text, Json)>
    requires Labelled(es)
  {
    match es
    case End => []
    case Entry(tag, value, _, _, more) => [(Meaning(tag.name), value)] + Members(more)
  }

  predicate Labelled(es: Entries)
  {
    es == End || (es.tag.Label? && AllOk(es.tag.name) && Labelled(es.more))
  }

  lemma {:induction false} ObjectsAreLabelled(es: Entries, depth: nat, seen: set<text>)
    requires EntriesOk(es, true, depth, seen)
    ensures Labelled(es)
  {
    if es.Entry? { ObjectsAreLabelled(es.more, depth, seen + LabelNames(es.tag)); }
  }

  /** No two members of a well-formed object share a decoded name. */
  lemma {:induction false} NamesDiffer(es: Entries, depth: nat, seen: set<text>)
    requires EntriesOk(es, true, depth, seen) && Labelled(es)
    ensures forall i :: 0 <= i < |Members(es)| ==> Members(es)[i].0 !in seen
    ensures forall i, j :: 0 <= i < j < |Members(es)| ==> Members(es)[i].0 != Members(es)[j].0
  {
    if es.Entry? {
      NamesDiffer(es.more, depth, seen + LabelNames(es.tag));
    }
  }

  /** The value of the member called `key`. */
  function Lookup(es: Entries, key: text): Option<Json>
    requires Labelled(es)
  {
    if es == End then None
    else if Meaning(es.tag.name) == key then Some(es.value)
    else Lookup(es.more, key)
  }

  /** The lookup finds the member of that name wherever it stands, and nothing when there is none. */
  lemma {:induction false} LookupExact(es: Entries, key: text, v: Json, depth: nat, seen: set<text>)
    requires EntriesOk(es, true, depth, seen) && Labelled(es)
    ensures Lookup(es, key) == Some(v) <==> (key, v) in Members(es)
    ensures Lookup(es, key) == None <==> forall i :: 0 <= i < |Members(es)| ==> Members(es)[i].0 != key
  {
    if es.Entry? {
      var ms, tail := Members(es), Members(es.more);
      LookupExact(es.more, key, v, depth, seen + LabelNames(es.tag));
      NamesDiffer(es.more, depth, seen + LabelNames(es.tag));
      assert ms[0].0 == Meaning(es.tag.name);
      assert forall i :: 0 <= i < |tail| ==> ms[i + 1] == tail[i];
      if (key, v) in tail {
        var i :| 0 <= i < |tail| && tail[i] == (key, v);
        assert tail[i].0 == key;
      }
      if Lookup(es, key) == None {
        assert forall i :: 0 < i < |ms| ==> ms[i] == tail[i - 1];
      }
    }
  }

  lemma {:induction false} LookupOk(es: Entries, key: text, depth: nat, seen: set<text>)
    requires EntriesOk(es, true, depth, seen) && Labelled(es) && Lookup(es, key).Some?
    ensures JsonOk(Lookup(es, key).value, depth + 1)
  {
    if Meaning(es.tag.name) != key { LookupOk(es.more, key, depth, seen + LabelNames(es.tag)); }
  }

  // ---- Tokens end where a delimiter starts ----

  predicate IsDelimiter(c: byte)
  {
    c == COMMA || c == CLOSE_BRACE || c == CLOSE_BRACKET || IsWs(c) || c == 0x0C
  }

  /** Words and numbers must be followed by a delimiter or nothing. */
  predicate Ends(v: Json, rest: seq<byte>)
  {
    (v.Word? || v.Num?) && rest != [] ==> IsDelimiter(rest[0])
  }

  /** A value starts with a character that is neither white space nor a closing bracket. */
  lemma PrintStarts(v: Json, depth: nat)
    requires JsonOk(v, depth)
    ensures Print(v) != []
    ensures var c := Print(v)[0];
      !IsWs(c) && c != CLOSE_BRACE && c != CLOSE_BRACKET && (c == QUOTE <==> v.Str?) &&
      (c == OPEN_BRACE <==> v.Node? && v.braces) && (c == OPEN_BRACKET <==> v.Node? && !v.braces)
  {
    if v.Num? {
      var c := Print(v)[0];
      assert c in NumberText(v.number);
      NumberChars(v.number, c);
    }
  }

  lemma EntriesStart(es: Entries, braces: bool, depth: nat, seen: set<text>)
    requires EntriesOk(es, braces, depth, seen)
    ensures PrintEntries(es, braces) != [] && !IsWs(PrintEntries(es, braces)[0])
    ensures PrintEntries(es, braces)[0] == Close(braces) <==> es == End
  {
    if es.Entry? {
      PrintStarts(es.value, depth + 1);
    }
  }
}
