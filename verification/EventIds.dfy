/**
  Which events a response holds and what identifies them, said of the members of its JSON tree,
  with the names written out.
 */
module EventIds {
  import opened Bits
  import opened Utf8
  import opened JsonStrings
  import opened JsonGrammar
  import opened JsonScan
  import opened JsonText
  import opened Events
  import E = Envelope

  const NAME_ID: text := [0x69, 0x64]
  const NAME_PARAMS: text := [0x70, 0x61, 0x72, 0x61, 0x6D, 0x73]
  const NAME_RESULT: text := [0x72, 0x65, 0x73, 0x75, 0x6C, 0x74]
  const NAME_EVENTS: text := [0x65, 0x76, 0x65, 0x6E, 0x74, 0x73]

  // ---- Members ----

  /** `v` is an object with a member of that name and value. */
  ghost predicate HasMember(v: Json, key: text, w: Json)
  {
    v.Node? && v.braces && Labelled(v.entries) && (key, w) in Members(v.entries)
  }

  ghost predicate Lacks(v: Json, key: text)
  {
    forall w :: !HasMember(v, key, w)
  }

  lemma Written(v: Json)
    requires IsObject(v)
    ensures ParseObject(Print(v)) == Some(v)
  {
    assert AllWs([]) && Print(v) == [] + (Print(v) + []);
    ParseObjectComplete(Print(v), v);
  }

  lemma LookupFinds(v: Json, key: text, w: Json)
    requires IsObject(v) && HasMember(v, key, w)
    ensures Lookup(v.entries, key) == Some(w) && JsonOk(w, 1)
  {
    LookupExact(v.entries, key, w, 0, {});
    LookupOk(v.entries, key, 0, {});
  }

  lemma LookupMisses(v: Json, key: text)
    requires IsObject(v) && Labelled(v.entries) && Lacks(v, key)
    ensures Lookup(v.entries, key) == None
  {
    if Lookup(v.entries, key).Some? {
      var w := Lookup(v.entries, key).value;
      assert !HasMember(v, key, w);
      LookupExact(v.entries, key, w, 0, {});
    }
  }

  /** The lookups of a member that is there, in any text of the object. */
  lemma MemberFound(b: seq<byte>, v: Json, key: text, w: Json)
    requires ParseObject(b) == Some(v) && IsObject(v) && HasMember(v, key, w)
    ensures FieldTree(b, key) == Some(w)
  {
    LookupFinds(v, key, w);
  }

  lemma MemberMissing(b: seq<byte>, v: Json, key: text)
    requires ParseObject(b) == Some(v) && IsObject(v) && Lacks(v, key)
    ensures FieldTree(b, key) == None
  {
    ObjectsAreLabelled(v.entries, 0, {});
    LookupMisses(v, key);
  }

  /** A value that is no object has no fields. */
  lemma NoObjectNoField(p: Json, key: text)
    requires JsonOk(p, 1) && !(p.Node? && p.braces)
    ensures FieldTree(Print(p), key) == None
  {
    PrintStarts(p, 1);
    assert Print(p) == [] + (Print(p) + []);
    TrimWs([], Print(p));
  }

  // ---- What identifies an event ----

  /** What a value names: a string its text, anything else nothing. */
  ghost predicate Says(w: Json, id: text)
  {
    if w.Str? then AllOk(w.pieces) && id == Meaning(w.pieces) else id == []
  }

  /** The event's own identifier counts; without one that of its parameters; otherwise it has none. */
  ghost predicate Identifies(v: Json, id: text)
  {
    || (exists w :: HasMember(v, NAME_ID, w) && Says(w, id))
    || (Lacks(v, NAME_ID) && exists p, w :: HasMember(v, NAME_PARAMS, p) && HasMember(p, NAME_ID, w) && Says(w, id))
    || (Lacks(v, NAME_ID) && (forall p :: HasMember(v, NAME_PARAMS, p) ==> Lacks(p, NAME_ID)) && id == [])
  }

  function Reading(raw: Option<seq<byte>>): text
  {
    match raw
    case None => []
    case Some(s) => match Decoded(s) case None => [] case Some(t) => t
  }

  lemma StringReads(w: Json, id: text)
    requires JsonOk(w, 1)
    ensures Reading(Some(Print(w))) == id <==> Says(w, id)
  {
    if w.Str? {
      SpellingExact(Print(w), w.pieces);
    } else {
      PrintStarts(w, 1);
      assert Spelling(Print(w)) == None;
    }
  }

  /** What the lookup of an identifier in the parameters comes to. */
  lemma ParamsRead(p: Json, w: Json)
    requires JsonOk(p, 1) && HasMember(p, NAME_ID, w)
    ensures Field(Print(p), NAME_ID) == Some(Print(w)) && JsonOk(w, 1)
  {
    Shallower(p, 1, 0);
    Written(p);
    MemberFound(Print(p), p, NAME_ID, w);
    LookupFinds(p, NAME_ID, w);
    FieldTreeText(Print(p), NAME_ID);
  }

  lemma ParamsLack(p: Json)
    requires JsonOk(p, 1) && Lacks(p, NAME_ID)
    ensures Field(Print(p), NAME_ID) == None
  {
    if p.Node? && p.braces {
      Shallower(p, 1, 0);
      Written(p);
      MemberMissing(Print(p), p, NAME_ID);
    } else {
      NoObjectNoField(p, NAME_ID);
    }
    FieldTreeText(Print(p), NAME_ID);
  }

  lemma EventIdOf(event: seq<byte>, own: Option<seq<byte>>, params: Option<seq<byte>>)
    requires own == Field(event, NAME_ID) && params == Field(event, NAME_PARAMS)
    ensures EventId(event) ==
      if own.Some? then Reading(own) else if params.Some? then Reading(Field(params.value, NAME_ID)) else []
  {
    assert E.KEYS.id == NAME_ID && E.KEYS.params == NAME_PARAMS;
  }

  /** An own identifier counts, whatever the parameters hold. */
  lemma OwnIdCounts(v: Json, w: Json)
    requires IsObject(v) && HasMember(v, NAME_ID, w)
    ensures EventId(Print(v)) == Reading(Some(Print(w)))
  {
    Written(v);
    MemberFound(Print(v), v, NAME_ID, w);
    FieldTreeText(Print(v), NAME_ID);
    EventIdOf(Print(v), Some(Print(w)), Field(Print(v), NAME_PARAMS));
  }

  /** Without one the parameters are asked. */
  lemma ParamsIdCounts(v: Json, p: Json)
    requires IsObject(v) && Lacks(v, NAME_ID) && HasMember(v, NAME_PARAMS, p)
    ensures EventId(Print(v)) == Reading(Field(Print(p), NAME_ID)) && JsonOk(p, 1)
  {
    Written(v);
    MemberMissing(Print(v), v, NAME_ID);
    FieldTreeText(Print(v), NAME_ID);
    MemberFound(Print(v), v, NAME_PARAMS, p);
    LookupFinds(v, NAME_PARAMS, p);
    FieldTreeText(Print(v), NAME_PARAMS);
    EventIdOf(Print(v), None, Some(Print(p)));
  }

  lemma NoIdAnywhere(v: Json)
    requires IsObject(v) && Lacks(v, NAME_ID) && Lacks(v, NAME_PARAMS)
    ensures EventId(Print(v)) == []
  {
    Written(v);
    MemberMissing(Print(v), v, NAME_ID);
    FieldTreeText(Print(v), NAME_ID);
    MemberMissing(Print(v), v, NAME_PARAMS);
    FieldTreeText(Print(v), NAME_PARAMS);
    EventIdOf(Print(v), None, None);
  }

  lemma OneOwnId(v: Json, w: Json, id: text)
    requires IsObject(v) && HasMember(v, NAME_ID, w)
    ensures Identifies(v, id) <==> Says(w, id)
  {
    LookupFinds(v, NAME_ID, w);
    if Identifies(v, id) {
      var x :| HasMember(v, NAME_ID, x) && Says(x, id);
      LookupFinds(v, NAME_ID, x);
    }
  }

  lemma OneParamsId(v: Json, p: Json, w: Json, id: text)
    requires IsObject(v) && Lacks(v, NAME_ID) && HasMember(v, NAME_PARAMS, p)
    requires JsonOk(p, 1) && HasMember(p, NAME_ID, w)
    ensures Identifies(v, id) <==> Says(w, id)
  {
    LookupFinds(v, NAME_PARAMS, p);
    Shallower(p, 1, 0);
    LookupFinds(p, NAME_ID, w);
    if Identifies(v, id) {
      var q, x :| HasMember(v, NAME_PARAMS, q) && HasMember(q, NAME_ID, x) && Says(x, id);
      LookupFinds(v, NAME_PARAMS, q);
      LookupFinds(p, NAME_ID, x);
    }
  }

  /** Every object has one identifier, and it is the one taken from its text. */
  lemma EventIdExact(v: Json, id: text)
    requires IsObject(v)
    ensures EventId(Print(v)) == id <==> Identifies(v, id)
  {
    if w :| HasMember(v, NAME_ID, w) {
      OwnIdCounts(v, w);
      OneOwnId(v, w, id);
      LookupFinds(v, NAME_ID, w);
      StringReads(w, id);
    } else if p :| HasMember(v, NAME_PARAMS, p) {
      ParamsIdCounts(v, p);
      if w :| HasMember(p, NAME_ID, w) {
        OneParamsId(v, p, w, id);
        ParamsRead(p, w);
        StringReads(w, id);
      } else {
        ParamsLack(p);
        LookupFinds(v, NAME_PARAMS, p);
        forall q | HasMember(v, NAME_PARAMS, q) ensures q == p { LookupFinds(v, NAME_PARAMS, q); }
      }
    } else {
      NoIdAnywhere(v);
    }
  }

  // ---- The events of a response ----

  /** A response that is an object with this result. */
  ghost predicate HasResult(body: seq<byte>, result: Json)
  {
    exists v :: ParseObject(body) == Some(v) && HasMember(v, NAME_RESULT, result)
  }

  ghost predicate ObjectsOnly(items: seq<Json>)
  {
    forall k :: 0 <= k < |items| ==> items[k].Node? && items[k].braces
  }

  lemma {:induction false} ObjectsOnlyExact(es: Entries)
    ensures AllObjects(es) <==> ObjectsOnly(Items(es))
    decreases es
  {
    if es.Entry? {
      ObjectsOnlyExact(es.more);
      var all, tail := Items(es), Items(es.more);
      assert all[0] == es.value;
      if ObjectsOnly(all) {
        forall k | 0 <= k < |tail| ensures tail[k].Node? && tail[k].braces { assert tail[k] == all[k + 1]; }
      }
    }
  }

  lemma ResultFound(body: seq<byte>, result: Json)
    ensures HasResult(body, result) <==> FieldTree(body, E.RESULT) == Some(result)
    ensures HasResult(body, result) ==> JsonOk(result, 1)
  {
    assert E.RESULT == NAME_RESULT;
    if v :| ParseObject(body) == Some(v) {
      ParseObjectSound(body, v);
      ObjectsAreLabelled(v.entries, 0, {});
      LookupExact(v.entries, NAME_RESULT, result, 0, {});
      if HasMember(v, NAME_RESULT, result) { LookupFinds(v, NAME_RESULT, result); }
    }
  }

  lemma EventsFound(result: Json, events: Json)
    requires JsonOk(result, 1)
    ensures HasMember(result, NAME_EVENTS, events) <==> FieldTree(Print(result), EVENTS) == Some(events)
    ensures HasMember(result, NAME_EVENTS, events) ==> JsonOk(events, 1)
  {
    assert EVENTS == NAME_EVENTS;
    if result.Node? && result.braces {
      Shallower(result, 1, 0);
      Written(result);
      ObjectsAreLabelled(result.entries, 0, {});
      LookupExact(result.entries, NAME_EVENTS, events, 0, {});
      if HasMember(result, NAME_EVENTS, events) { LookupFinds(result, NAME_EVENTS, events); }
    } else {
      NoObjectNoField(result, NAME_EVENTS);
    }
  }

  /** Without a result there is no batch. */
  lemma NoResultNoBatch(body: seq<byte>)
    requires forall result :: !HasResult(body, result)
    ensures EventsOf(body) == None
  {
    if FieldTree(body, E.RESULT).Some? { ResultFound(body, FieldTree(body, E.RESULT).value); }
  }

  /** A result without events is an empty batch. */
  lemma NoEventsNoWork(body: seq<byte>, result: Json)
    requires HasResult(body, result) && Lacks(result, NAME_EVENTS)
    ensures EventsOf(body) == Some([])
  {
    ResultFound(body, result);
    var found := FieldTree(Print(result), EVENTS);
    if found.Some? { EventsFound(result, found.value); }
  }

  /** Events are taken exactly when they are an array of objects. */
  lemma BatchTaken(body: seq<byte>, result: Json, events: Json)
    requires HasResult(body, result) && HasMember(result, NAME_EVENTS, events)
    ensures EventsOf(body) ==
      if IsArray(events) && ObjectsOnly(Items(events.entries)) then Some(Texts(Items(events.entries))) else None
  {
    ResultFound(body, result);
    EventsFound(result, events);
    if IsArray(events) { ObjectsOnlyExact(events.entries); }
  }

  lemma {:induction false} IdAt(events: seq<seq<byte>>, k: nat)
    requires k < |events|
    ensures EventIds(events)[k] == EventId(events[k])
  {
    if k < |events| - 1 { IdAt(events[..|events| - 1], k); }
  }

  /**
    Each event of a batch is the text of the item at its place in the array, and the identifier
    it is acknowledged and held back by is the one that item names.
   */
  lemma BatchIdentified(body: seq<byte>, result: Json, events: Json, k: nat)
    requires HasResult(body, result) && HasMember(result, NAME_EVENTS, events) && IsArray(events)
    requires ObjectsOnly(Items(events.entries)) && k < |Items(events.entries)|
    ensures
      var items := Items(events.entries);
      && EventsOf(body).Some? && |EventsOf(body).value| == |items|
      && EventsOf(body).value[k] == Print(items[k])
      && Identifies(items[k], EventIds(EventsOf(body).value)[k])
  {
    BatchTaken(body, result, events);
    TakenInOrder(events.entries, k);
    IdAt(EventsOf(body).value, k);
    ResultFound(body, result);
    EventsFound(result, events);
    ItemIdentified(events, k);
  }

  lemma ItemIdentified(events: Json, k: nat)
    requires JsonOk(events, 1) && IsArray(events) && ObjectsOnly(Items(events.entries))
    requires k < |Items(events.entries)|
    ensures Identifies(Items(events.entries)[k], EventId(Print(Items(events.entries)[k])))
  {
    ItemOk(events.entries, 1, {}, k);
    var item := Items(events.entries)[k];
    Shallower(item, 2, 0);
    EventIdExact(item, EventId(Print(item)));
  }
}
