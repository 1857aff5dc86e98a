/**
  The names and fixed values on the wire and in the counter file, written out as bytes: what a
  request, a response and the file hold under each of them.
 */
module WireNames {
  import opened Bits
  import opened Utf8
  import opened JsonStrings
  import opened JsonGrammar
  import opened JsonText
  import opened Events
  import opened EventIds
  import E = Envelope
  import C = CounterFile

  const NAME_JSONRPC: text := [0x6A, 0x73, 0x6F, 0x6E, 0x72, 0x70, 0x63]
  const NAME_METHOD: text := [0x6D, 0x65, 0x74, 0x68, 0x6F, 0x64]
  const NAME_ERROR: text := [0x65, 0x72, 0x72, 0x6F, 0x72]
  const NAME_MONTH: text := [0x6D, 0x6F, 0x6E, 0x74, 0x68]
  const NAME_TX: text := [0x74, 0x78, 0x5F, 0x62, 0x79, 0x74, 0x65, 0x73]
  const NAME_RX: text := [0x72, 0x78, 0x5F, 0x62, 0x79, 0x74, 0x65, 0x73]

  /** The raw text of the version: two, a full stop and zero in quotes. */
  const VERSION: seq<byte> := [0x22, 0x32, 0x2E, 0x30, 0x22]

  const NULL: seq<byte> := [0x6E, 0x75, 0x6C, 0x6C]

  lemma VersionText()
    ensures [QUOTE] + EncodeAll(E.KEYS.version) + [QUOTE] == VERSION
  {
    EncodeAscii(E.KEYS.version);
    assert E.KEYS.version == [0x32, 0x2E, 0x30];
  }

  // ---- Requests ----

  /** A string among the fields reads as its text. */
  lemma StringSays(field: Option<seq<byte>>, t: text)
    requires field == Some(Quoted(EncodeAll(t))) || (field.Some? && Decoded(field.value) == Some(t))
    ensures Reading(field) == t
  {
    StringRoundTrip(t);
  }

  /** What stands in `b` under the names of `k`. */
  ghost predicate Says(b: seq<byte>, k: E.Keys, version: seq<byte>, id: text, name: text, params: Json)
  {
    && Field(b, k.jsonrpc) == Some(version) && Field(b, k.params) == Some(Print(params))
    && Reading(Field(b, k.id)) == id && Reading(Field(b, k.name)) == name
  }

  lemma RequestSays(b: seq<byte>, k: E.Keys, version: seq<byte>, id: text, name: text, before: seq<byte>,
                    params: Json, after: seq<byte>)
    requires E.KeysOk(k) && AllWs(before) && AllWs(after) && JsonOk(params, 1)
    requires b == E.RequestText(k, id, name, before + (Print(params) + after))
    requires version == Quoted(EncodeAll(k.version))
    ensures Says(b, k, version, id, name, params)
  {
    E.RequestField(k, id, name, before, params, after, k.jsonrpc);
    E.RequestRoundTrip(k, id, name, before, params, after);
    StringSays(Field(b, k.id), id);
    StringSays(Field(b, k.name), name);
  }

  lemma VersionQuoted(k: E.Keys)
    requires k == E.KEYS
    ensures Quoted(EncodeAll(k.version)) == VERSION
  {
    VersionText();
    E.KeysAreOk();
    E.PlainLiteral(k.version);
    QuotedIsLiteral(k.version);
  }

  /** What a request says under each name. */
  lemma RequestOnTheWire(b: seq<byte>, id: text, name: text, before: seq<byte>, params: Json, after: seq<byte>)
    requires AllWs(before) && AllWs(after) && JsonOk(params, 1)
    requires b == E.RequestText(E.KEYS, id, name, before + (Print(params) + after))
    ensures Field(b, NAME_JSONRPC) == Some(VERSION) && Field(b, NAME_PARAMS) == Some(Print(params))
    ensures Reading(Field(b, NAME_ID)) == id && Reading(Field(b, NAME_METHOD)) == name
  {
    E.KeysAreOk();
    VersionQuoted(E.KEYS);
    RequestSays(b, E.KEYS, VERSION, id, name, before, params, after);
    SaysByName(b, id, name, params);
  }

  lemma SaysByName(b: seq<byte>, id: text, name: text, params: Json)
    requires Says(b, E.KEYS, VERSION, id, name, params)
    ensures Field(b, NAME_JSONRPC) == Some(VERSION) && Field(b, NAME_PARAMS) == Some(Print(params))
    ensures Reading(Field(b, NAME_ID)) == id && Reading(Field(b, NAME_METHOD)) == name
  {
    assert E.KEYS == E.Keys(NAME_JSONRPC, E.KEYS.version, NAME_METHOD, NAME_PARAMS, NAME_ID);
  }

  // ---- Responses ----

  ghost predicate IsNull(w: Json)
  {
    Print(w) == NULL
  }

  /** What a member says under a name: the lookup finds its text. */
  lemma FieldOfMember(body: seq<byte>, v: Json, key: text, w: Json)
    requires ParseObject(body) == Some(v) && IsObject(v) && HasMember(v, key, w)
    ensures Field(body, key) == Some(Print(w))
  {
    MemberFound(body, v, key, w);
    FieldTreeText(body, key);
  }

  lemma FieldOfNone(body: seq<byte>, v: Json, key: text)
    requires ParseObject(body) == Some(v) && IsObject(v) && Lacks(v, key)
    ensures Field(body, key) == None
  {
    MemberMissing(body, v, key);
    FieldTreeText(body, key);
  }

  /** A field is there with some text exactly when a member of that name prints as it. */
  lemma FieldSays(body: seq<byte>, v: Json, key: text, raw: seq<byte>)
    requires ParseObject(body) == Some(v) && IsObject(v)
    ensures Field(body, key) == Some(raw) <==> exists w :: HasMember(v, key, w) && Print(w) == raw
  {
    if w :| HasMember(v, key, w) {
      FieldOfMember(body, v, key, w);
      forall x | HasMember(v, key, x) ensures Print(x) == Print(w) { FieldOfMember(body, v, key, x); }
    } else {
      FieldOfNone(body, v, key);
    }
  }

  /** A response is taken as a success exactly when it has the version, a result, and no error but null. */
  lemma ResponseExact(body: seq<byte>, v: Json)
    requires ParseObject(body) == Some(v)
    ensures E.Succeeds(body) <==>
      && (exists w :: HasMember(v, NAME_JSONRPC, w) && Print(w) == VERSION)
      && (exists w :: HasMember(v, NAME_RESULT, w) && !IsNull(w))
      && (forall w :: HasMember(v, NAME_ERROR, w) ==> IsNull(w))
  {
    ParseObjectSound(body, v);
    VersionText();
    assert E.RESULT == NAME_RESULT && E.ERROR == NAME_ERROR && E.KEYS.jsonrpc == NAME_JSONRPC;
    FieldSays(body, v, NAME_JSONRPC, VERSION);
    ResultSays(body, v);
    ErrorSays(body, v);
  }

  lemma ResultSays(body: seq<byte>, v: Json)
    requires ParseObject(body) == Some(v) && IsObject(v)
    ensures Field(body, NAME_RESULT).Some? && Field(body, NAME_RESULT) != Some(NULL_WORD) <==>
      exists w :: HasMember(v, NAME_RESULT, w) && !IsNull(w)
  {
    if w :| HasMember(v, NAME_RESULT, w) {
      FieldOfMember(body, v, NAME_RESULT, w);
      forall x | HasMember(v, NAME_RESULT, x) ensures Print(x) == Print(w) { FieldOfMember(body, v, NAME_RESULT, x); }
    } else {
      FieldOfNone(body, v, NAME_RESULT);
    }
  }

  lemma ErrorSays(body: seq<byte>, v: Json)
    requires ParseObject(body) == Some(v) && IsObject(v)
    ensures Field(body, NAME_ERROR) == None || Field(body, NAME_ERROR) == Some(NULL_WORD) <==>
      forall w :: HasMember(v, NAME_ERROR, w) ==> IsNull(w)
  {
    if w :| HasMember(v, NAME_ERROR, w) {
      FieldOfMember(body, v, NAME_ERROR, w);
      forall x | HasMember(v, NAME_ERROR, x) ensures Print(x) == Print(w) { FieldOfMember(body, v, NAME_ERROR, x); }
    } else {
      FieldOfNone(body, v, NAME_ERROR);
    }
  }

  // ---- The counter file ----

  lemma CounterSays(b: seq<byte>, n: C.Names, c: C.Counters)
    requires C.NamesOk(n) && C.ValidMonth(c.month) && b == C.CounterText(n, c)
    ensures Reading(Field(b, n.month)) == c.month
    ensures Field(b, n.tx) == Some(C.Decimal(c.tx)) && Field(b, n.rx) == Some(C.Decimal(c.rx))
  {
    C.CounterField(n, c, n.month);
    C.CounterField(n, c, n.tx);
    C.CounterField(n, c, n.rx);
    StringSays(Field(b, n.month), c.month);
  }

  /** What the counter file says under each name. */
  lemma CountersOnFile(b: seq<byte>, c: C.Counters)
    requires C.ValidMonth(c.month) && b == C.CounterText(C.NAMES, c)
    ensures Reading(Field(b, NAME_MONTH)) == c.month
    ensures Field(b, NAME_TX) == Some(C.Decimal(c.tx)) && Field(b, NAME_RX) == Some(C.Decimal(c.rx))
  {
    C.NamesAreOk();
    assert C.NAMES == C.Names(NAME_MONTH, NAME_TX, NAME_RX);
    CounterSays(b, C.NAMES, c);
  }
}
