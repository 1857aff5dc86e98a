/** JSON-RPC envelopes: what is built is a valid object whose fields are the ones put in. */
module Envelope {
  import opened Bits
  import opened Utf8
  import opened JsonStrings
  import opened JsonNumbers
  import opened JsonGrammar
  import opened JsonScan
  import opened JsonText

  /** The fixed texts of an envelope. */
  datatype Keys = Keys(jsonrpc: text, version: text, name: text, params: text, id: text)

  const KEYS: Keys := Keys(
    [0x6A, 0x73, 0x6F, 0x6E, 0x72, 0x70, 0x63],
    [0x32, 0x2E, 0x30],
    [0x6D, 0x65, 0x74, 0x68, 0x6F, 0x64],
    [0x70, 0x61, 0x72, 0x61, 0x6D, 0x73],
    [0x69, 0x64])

  const RESULT: text := [0x72, 0x65, 0x73, 0x75, 0x6C, 0x74]
  const ERROR: text := [0x65, 0x72, 0x72, 0x6F, 0x72]

  /** The names are plain and all different. */
  predicate KeysOk(k: Keys)
  {
    && IsPlain(k.jsonrpc) && IsPlain(k.version) && IsPlain(k.name) && IsPlain(k.params) && IsPlain(k.id)
    && k.name != k.jsonrpc && k.params != k.jsonrpc && k.params != k.name
    && k.id != k.jsonrpc && k.id != k.name && k.id != k.params
  }

  lemma KeysAreOk()
    ensures KeysOk(KEYS)
  {
    var k := KEYS;
    assert k.jsonrpc[0] == 0x6A && k.name[0] == 0x6D && k.params[0] == 0x70 && k.id[0] == 0x69;
  }

  /** ASCII text that needs no escape. */
  predicate IsPlain(t: text)
  {
    forall k :: 0 <= k < |t| ==> 0x20 <= t[k] < 0x80 && t[k] != QUOTE && t[k] != BACKSLASH
  }

  lemma PlainLiteral(t: text)
    requires IsPlain(t)
    ensures Literal(WrittenAll(t)) == [QUOTE] + EncodeAll(t) + [QUOTE]
  {
    EncodeAscii(t);
    EscapePlain(EncodeAll(t));
    QuotedIsLiteral(t);
  }

  // ---- Objects built member by member ----

  /** A member as the builders write it: a plain name, and a value with white space around it. */
  function Member(key: text, before: seq<byte>, value: Json, after: seq<byte>, more: Entries): Entries
  {
    Entry(Label(WrittenAll(key), [], before), value, after, [], more)
  }

  function Text(t: text): Json
  {
    Str(WrittenAll(t))
  }

  /** `"key":` as the builders write it. */
  function KeyText(key: text): seq<byte>
  {
    [QUOTE] + EncodeAll(key) + [QUOTE, COLON]
  }

  /** What stands behind a member: a comma and more members, or the closing brace. */
  function Behind(more: Entries): seq<byte>
  {
    Continued([], more == End, PrintEntries(more, true))
  }

  lemma BehindMore(more: Entries)
    requires more != End
    ensures Behind(more) == [COMMA] + PrintEntries(more, true)
  {
    assert [COMMA] + [] == [COMMA];
  }

  lemma Regroup(k: seq<byte>, b: seq<byte>, p: seq<byte>, a: seq<byte>, c: seq<byte>)
    ensures (k + b) + (p + (a + c)) == (k + (b + (p + a))) + c
  {
    Assoc(p, a, c);
    Assoc(k, b, (p + a) + c);
    Assoc(b, p + a, c);
    Assoc(k, b + (p + a), c);
  }

  lemma MemberLabel(key: text, before: seq<byte>)
    requires IsPlain(key)
    ensures LabelText(Label(WrittenAll(key), [], before)) == KeyText(key) + before
  {
    PlainLiteral(key);
  }

  lemma MemberText(key: text, before: seq<byte>, value: Json, after: seq<byte>, more: Entries)
    requires IsPlain(key)
    ensures PrintEntries(Member(key, before, value, after, more), true) ==
      (KeyText(key) + (before + (Print(value) + after))) + Behind(more)
  {
    MemberLabel(key, before);
    Regroup(KeyText(key), before, Print(value), after, Behind(more));
  }

  lemma PlainMemberText(key: text, value: Json, more: Entries)
    requires IsPlain(key)
    ensures PrintEntries(Member(key, [], value, [], more), true) == (KeyText(key) + Print(value)) + Behind(more)
  {
    MemberText(key, [], value, [], more);
    assert [] + (Print(value) + []) == Print(value);
  }

  lemma MemberOk(key: text, before: seq<byte>, value: Json, after: seq<byte>, more: Entries, seen: set<text>)
    requires AllWs(before) && AllWs(after) && JsonOk(value, 1) && key !in seen
    requires EntriesOk(more, true, 0, seen + {key})
    ensures EntriesOk(Member(key, before, value, after, more), true, 0, seen)
  {
  }

  lemma LookupMember(key: text, before: seq<byte>, value: Json, after: seq<byte>, more: Entries, want: text)
    requires Labelled(more)
    ensures Labelled(Member(key, before, value, after, more))
    ensures Lookup(Member(key, before, value, after, more), want) ==
      if want == key then Some(value) else Lookup(more, want)
  {
  }

  lemma FieldOf(b: seq<byte>, v: Json, key: text)
    requires b == Print(v) && IsObject(v)
    ensures ParseObject(b) == Some(v) && Labelled(v.entries)
    ensures Field(b, key) == match Lookup(v.entries, key) case None => None case Some(m) => Some(Print(m))
  {
    var none: seq<byte> := [];
    assert AllWs(none) && b == none + (Print(v) + none);
    assert Spells(b, v);
    ParseObjectComplete(b, v);
    ObjectsAreLabelled(v.entries, 0, {});
  }

  lemma TextText(t: text)
    ensures Print(Text(t)) == Quoted(EncodeAll(t)) && JsonOk(Text(t), 1)
    ensures Decoded(Print(Text(t))) == Some(t)
  {
    QuotedIsLiteral(t);
    StringRoundTrip(t);
  }

  /** One more member appended, piece by piece. */
  lemma Appended(text: seq<byte>, key: seq<byte>, value: seq<byte>, tail: seq<byte>)
    ensures text + [COMMA] + key + value + tail == text + ([COMMA] + ((key + value) + tail))
  {
    Assoc(text + [COMMA] + key, value, tail);
    Assoc(text + [COMMA], key, value + tail);
    Assoc(text, [COMMA], key + (value + tail));
    Assoc(key, value, tail);
  }

  // ---- Requests ----

  /** `{"jsonrpc":"2.0"` */
  function Version(k: Keys): seq<byte>
  {
    [OPEN_BRACE] + KeyText(k.jsonrpc) + ([QUOTE] + EncodeAll(k.version) + [QUOTE])
  }

  /** A notification up to its parameters. */
  function CallText(k: Keys, name: text, params: seq<byte>): seq<byte>
  {
    Version(k) + [COMMA] + KeyText(k.name) + Quoted(EncodeAll(name)) + [COMMA] + KeyText(k.params) + params
  }

  function RequestText(k: Keys, id: text, name: text, params: seq<byte>): seq<byte>
  {
    CallText(k, name, params) + [COMMA] + KeyText(k.id) + Quoted(EncodeAll(id)) + [CLOSE_BRACE]
  }

  /** Build a notification. */
  method NewNotification(name: text, params: seq<byte>) returns (v: seq<byte>)
    ensures v == CallText(KEYS, name, params) + [CLOSE_BRACE]
  {
    var k := KEYS;
    v := Version(k) + [COMMA] + KeyText(k.name);
    v := WriteJsonString(v, EncodeAll(name));
    v := v + [COMMA] + KeyText(k.params);
    v := v + params;
    v := v + [CLOSE_BRACE];
  }

  /** Build a request. */
  method NewRequest(id: text, name: text, params: seq<byte>) returns (v: seq<byte>)
    ensures v == RequestText(KEYS, id, name, params)
  {
    var k := KEYS;
    v := Version(k) + [COMMA] + KeyText(k.name);
    v := WriteJsonString(v, EncodeAll(name));
    v := v + [COMMA] + KeyText(k.params);
    v := v + params;
    v := v + [COMMA] + KeyText(k.id);
    v := WriteJsonString(v, EncodeAll(id));
    v := v + [CLOSE_BRACE];
  }

  function CallTree(k: Keys, name: text, before: seq<byte>, params: Json, after: seq<byte>, last: Entries): Json
  {
    Node(true, [], Member(k.jsonrpc, [], Text(k.version), [], Named(k, name, before, params, after, last)))
  }

  function Named(k: Keys, name: text, before: seq<byte>, params: Json, after: seq<byte>, last: Entries): Entries
  {
    Member(k.name, [], Text(name), [], Member(k.params, before, params, after, last))
  }

  function IdMember(k: Keys, id: text): Entries
  {
    Member(k.id, [], Text(id), [], End)
  }

  lemma NamedText(k: Keys, name: text, before: seq<byte>, params: Json, after: seq<byte>, last: Entries)
    requires KeysOk(k)
    ensures PrintEntries(Named(k, name, before, params, after, last), true) ==
      (KeyText(k.name) + Quoted(EncodeAll(name))) +
        ([COMMA] + ((KeyText(k.params) + (before + (Print(params) + after))) + Behind(last)))
  {
    var third := Member(k.params, before, params, after, last);
    MemberText(k.params, before, params, after, last);
    PlainMemberText(k.name, Text(name), third);
    TextText(name);
    BehindMore(third);
  }

  lemma TreeHead(k: Keys, second: Entries)
    requires KeysOk(k) && second != End
    ensures Print(Node(true, [], Member(k.jsonrpc, [], Text(k.version), [], second))) ==
      Version(k) + ([COMMA] + PrintEntries(second, true))
  {
    PlainMemberText(k.jsonrpc, Text(k.version), second);
    VersionText(k, Behind(second));
    BehindMore(second);
  }

  lemma CallTreeText(k: Keys, name: text, before: seq<byte>, params: Json, after: seq<byte>, last: Entries)
    requires KeysOk(k)
    ensures Print(CallTree(k, name, before, params, after, last)) ==
      CallText(k, name, before + (Print(params) + after)) + Behind(last)
  {
    TreeHead(k, Named(k, name, before, params, after, last));
    NamedText(k, name, before, params, after, last);
    CallTextSplit(k, name, before + (Print(params) + after), Behind(last));
  }

  lemma CallTextSplit(k: Keys, name: text, params: seq<byte>, tail: seq<byte>)
    ensures CallText(k, name, params) + tail ==
      Version(k) + ([COMMA] + ((KeyText(k.name) + Quoted(EncodeAll(name))) +
        ([COMMA] + ((KeyText(k.params) + params) + tail))))
  {
    var q := Quoted(EncodeAll(name));
    Appended(Version(k) + [COMMA] + KeyText(k.name) + q, KeyText(k.params), params, tail);
    Appended(Version(k), KeyText(k.name), q, [COMMA] + ((KeyText(k.params) + params) + tail));
  }

  lemma VersionText(k: Keys, tail: seq<byte>)
    requires KeysOk(k)
    ensures [OPEN_BRACE] + [] + ((KeyText(k.jsonrpc) + Print(Text(k.version))) + tail) == Version(k) + tail
  {
    PlainLiteral(k.version);
    Assoc([OPEN_BRACE], KeyText(k.jsonrpc) + Print(Text(k.version)), tail);
    Assoc([OPEN_BRACE], KeyText(k.jsonrpc), Print(Text(k.version)));
    assert [OPEN_BRACE] + [] == [OPEN_BRACE];
  }

  lemma IdText(k: Keys, id: text)
    requires KeysOk(k)
    ensures Behind(IdMember(k, id)) == [COMMA] + ((KeyText(k.id) + Quoted(EncodeAll(id))) + [CLOSE_BRACE])
  {
    PlainMemberText(k.id, Text(id), End);
    TextText(id);
    BehindMore(IdMember(k, id));
  }

  lemma RequestTreeText(k: Keys, id: text, name: text, before: seq<byte>, params: Json, after: seq<byte>)
    requires KeysOk(k)
    ensures Print(CallTree(k, name, before, params, after, IdMember(k, id))) ==
      RequestText(k, id, name, before + (Print(params) + after))
  {
    CallTreeText(k, name, before, params, after, IdMember(k, id));
    IdText(k, id);
    Appended(CallText(k, name, before + (Print(params) + after)), KeyText(k.id), Quoted(EncodeAll(id)), [CLOSE_BRACE]);
  }

  lemma CallTreeOk(k: Keys, name: text, before: seq<byte>, params: Json, after: seq<byte>, last: Entries)
    requires KeysOk(k) && AllWs(before) && AllWs(after) && JsonOk(params, 1)
    requires EntriesOk(last, true, 0, {k.jsonrpc} + {k.name} + {k.params})
    ensures IsObject(CallTree(k, name, before, params, after, last))
  {
    var third := Member(k.params, before, params, after, last);
    MemberOk(k.params, before, params, after, last, {k.jsonrpc} + {k.name});
    TextText(name);
    MemberOk(k.name, [], Text(name), [], third, {k.jsonrpc});
    TextText(k.version);
    assert {} + {k.jsonrpc} == {k.jsonrpc};
    MemberOk(k.jsonrpc, [], Text(k.version), [], Named(k, name, before, params, after, last), {});
  }

  lemma CallLookup(k: Keys, name: text, before: seq<byte>, params: Json, after: seq<byte>, last: Entries, want: text)
    requires Labelled(last)
    ensures
      var es := CallTree(k, name, before, params, after, last).entries;
      && Labelled(es)
      && Lookup(es, want) ==
           if want == k.jsonrpc then Some(Text(k.version))
           else if want == k.name then Some(Text(name))
           else if want == k.params then Some(params) else Lookup(last, want)
  {
    LookupMember(k.params, before, params, after, last, want);
    LookupMember(k.name, [], Text(name), [], Member(k.params, before, params, after, last), want);
    LookupMember(k.jsonrpc, [], Text(k.version), [], Named(k, name, before, params, after, last), want);
  }

  lemma IdMemberOk(k: Keys, id: text, want: text)
    requires KeysOk(k)
    ensures EntriesOk(IdMember(k, id), true, 0, {k.jsonrpc} + {k.name} + {k.params}) && Labelled(IdMember(k, id))
    ensures Lookup(IdMember(k, id), want) == if want == k.id then Some(Text(id)) else None
  {
    TextText(id);
    MemberOk(k.id, [], Text(id), [], End, {k.jsonrpc} + {k.name} + {k.params});
    LookupMember(k.id, [], Text(id), [], End, want);
  }

  lemma RequestLookup(k: Keys, id: text, name: text, before: seq<byte>, params: Json, after: seq<byte>, want: text)
    returns (v: Json)
    requires KeysOk(k) && AllWs(before) && AllWs(after) && JsonOk(params, 1)
    ensures IsObject(v) && Print(v) == RequestText(k, id, name, before + (Print(params) + after)) && Labelled(v.entries)
    ensures Lookup(v.entries, want) ==
      if want == k.jsonrpc then Some(Text(k.version))
      else if want == k.name then Some(Text(name))
      else if want == k.params then Some(params)
      else if want == k.id then Some(Text(id)) else None
  {
    v := CallTree(k, name, before, params, after, IdMember(k, id));
    IdMemberOk(k, id, want);
    CallTreeOk(k, name, before, params, after, IdMember(k, id));
    CallLookup(k, name, before, params, after, IdMember(k, id), want);
    RequestTreeText(k, id, name, before, params, after);
  }

  lemma RequestField(k: Keys, id: text, name: text, before: seq<byte>, params: Json, after: seq<byte>, want: text)
    requires KeysOk(k) && AllWs(before) && AllWs(after) && JsonOk(params, 1)
    ensures
      var b := RequestText(k, id, name, before + (Print(params) + after));
      && ParseObject(b).Some?
      && Field(b, want) ==
           if want == k.jsonrpc then Some(Quoted(EncodeAll(k.version)))
           else if want == k.name then Some(Quoted(EncodeAll(name)))
           else if want == k.params then Some(Print(params))
           else if want == k.id then Some(Quoted(EncodeAll(id))) else None
  {
    var v := RequestLookup(k, id, name, before, params, after, want);
    TextText(id);
    TextText(name);
    TextText(k.version);
    FieldOf(RequestText(k, id, name, before + (Print(params) + after)), v, want);
  }

  /**
    A request is a valid object, whatever its id and method are called, and its fields give back
    the id, the method and the parameters: any value nested at most 31 deep, with white space around it.
   */
  lemma RequestRoundTrip(k: Keys, id: text, name: text, before: seq<byte>, params: Json, after: seq<byte>)
    requires KeysOk(k) && AllWs(before) && AllWs(after) && JsonOk(params, 1)
    ensures
      var b := RequestText(k, id, name, before + (Print(params) + after));
      && ParseObject(b).Some?
      && Field(b, k.params) == Some(Print(params))
      && Field(b, k.id).Some? && Decoded(Field(b, k.id).value) == Some(id)
      && Field(b, k.name).Some? && Decoded(Field(b, k.name).value) == Some(name)
      && Field(b, k.jsonrpc).Some? && Decoded(Field(b, k.jsonrpc).value) == Some(k.version)
  {
    RequestField(k, id, name, before, params, after, k.params);
    RequestField(k, id, name, before, params, after, k.id);
    RequestField(k, id, name, before, params, after, k.name);
    RequestField(k, id, name, before, params, after, k.jsonrpc);
    StringRoundTrip(id);
    StringRoundTrip(name);
    StringRoundTrip(k.version);
  }

  /** The texts the scanner accepts in full one level down are those of the values nested at most 31 deep. */
  lemma AcceptedInFull(params: seq<byte>)
    ensures ScanValue(params, 1).Found? && ScanValue(params, 1).rest == [] <==>
      exists p :: JsonOk(p, 1) && params == Print(p)
  {
    if ScanValue(params, 1).Found? && ScanValue(params, 1).rest == [] {
      ScanValueSound(params, 1);
      var p := ScanValue(params, 1).value;
      assert Print(p) + [] == Print(p);
    }
    if p :| JsonOk(p, 1) && params == Print(p) {
      ScanValueComplete(p, 1, []);
      assert Print(p) + [] == Print(p);
    }
  }

  /** A notification gives back its method and parameters, and has no id. */
  lemma NotificationRoundTrip(k: Keys, name: text, before: seq<byte>, params: Json, after: seq<byte>)
    requires KeysOk(k) && AllWs(before) && AllWs(after) && JsonOk(params, 1)
    ensures
      var b := CallText(k, name, before + (Print(params) + after)) + [CLOSE_BRACE];
      && ParseObject(b).Some?
      && Field(b, k.params) == Some(Print(params)) && Field(b, k.id) == None
      && Field(b, k.name).Some? && Decoded(Field(b, k.name).value) == Some(name)
  {
    var v := CallTree(k, name, before, params, after, End);
    var b := CallText(k, name, before + (Print(params) + after)) + [CLOSE_BRACE];
    CallTreeText(k, name, before, params, after, End);
    CallTreeOk(k, name, before, params, after, End);
    TextText(name);
    CallLookup(k, name, before, params, after, End, k.params);
    CallLookup(k, name, before, params, after, End, k.id);
    CallLookup(k, name, before, params, after, End, k.name);
    FieldOf(b, v, k.params);
    FieldOf(b, v, k.id);
    FieldOf(b, v, k.name);
  }

  // ---- Responses ----

  /** Whether a body reports an error: only the envelope's own field counts. */
  method ResponseHasError(body: seq<byte>) returns (yes: bool)
    ensures yes <==> Field(body, ERROR).Some? && Field(body, ERROR) != Some(NULL_WORD)
  {
    var e := ObjectField(body, ERROR);
    yes := e.Some? && e.value != NULL_WORD;
  }

  /** The envelope of a successful call: the version, a result, and no error unless it is null. */
  predicate Succeeds(body: seq<byte>)
  {
    && ParseObject(body).Some?
    && (Field(body, ERROR) == None || Field(body, ERROR) == Some(NULL_WORD))
    && Field(body, KEYS.jsonrpc) == Some([QUOTE] + EncodeAll(KEYS.version) + [QUOTE])
    && Field(body, RESULT).Some? && Field(body, RESULT) != Some(NULL_WORD)
  }

  /** Whether a body is the envelope of a successful call. */
  method ValidateResponse(body: seq<byte>) returns (ok: bool)
    ensures ok <==> Succeeds(body)
  {
    var failed := ResponseHasError(body);
    if failed {
      return false;
    }
    var version := ObjectField(body, KEYS.jsonrpc);
    if version != Some([QUOTE] + EncodeAll(KEYS.version) + [QUOTE]) {
      return false;
    }
    var result := ObjectField(body, RESULT);
    ok := result.Some? && result.value != NULL_WORD;
  }
}
