/** Server events: taken out of a response exactly, acknowledged each time, dispatched once. */
module Events {
  import opened Bits
  import opened Utf8
  import opened JsonStrings
  import opened JsonNumbers
  import opened JsonGrammar
  import opened JsonScan
  import opened JsonText
  import opened Settings
  import E = Envelope

  // ---- The window of events already dispatched ----

  const SEEN_CAP: nat := 256

  /** The window after an event has been dispatched. */
  function Remember(seen: seq<text>, id: text): seq<text>
  {
    if |seen| >= SEEN_CAP then seen[1..] + [id] else seen + [id]
  }

  predicate Dispatches(seen: seq<text>, id: text)
  {
    id == [] || id !in seen
  }

  function After(seen: seq<text>, id: text): seq<text>
  {
    if id == [] || id in seen then seen else Remember(seen, id)
  }

  /** The window after some sightings. */
  function SeenAfter(seen: seq<text>, ids: seq<text>): seq<text>
  {
    if ids == [] then seen else After(SeenAfter(seen, ids[..|ids| - 1]), ids[|ids| - 1])
  }

  /** The named events dispatched in a run of sightings, in order. */
  function Dispatched(ids: seq<text>): seq<text>
  {
    if ids == [] then []
    else
      var before, id := ids[..|ids| - 1], ids[|ids| - 1];
      if id != [] && id !in SeenAfter([], before) then Dispatched(before) + [id] else Dispatched(before)
  }

  /** The last `n` of a sequence, or all of it. */
  function Last(s: seq<text>, n: nat): seq<text>
  {
    if |s| <= n then s else s[|s| - n..]
  }

  /** The window holds the last 256 dispatched. */
  lemma {:induction false} WindowIsLast(ids: seq<text>)
    ensures SeenAfter([], ids) == Last(Dispatched(ids), SEEN_CAP)
  {
    if ids != [] {
      var before, id := ids[..|ids| - 1], ids[|ids| - 1];
      WindowIsLast(before);
      var d, seen := Dispatched(before), SeenAfter([], before);
      if id != [] && id !in seen {
        if |d| >= SEEN_CAP {
          assert (d + [id])[|d| + 1 - SEEN_CAP..] == d[|d| - SEEN_CAP..][1..] + [id];
        }
      }
    }
  }

  /**
    In any run, two dispatches of the same named event are at least 257 dispatches apart: among
    any 257 consecutive dispatches no event comes twice.
   */
  lemma {:induction false} DispatchesFarApart(ids: seq<text>, p: nat, q: nat)
    requires p < q < |Dispatched(ids)| && q - p <= SEEN_CAP
    ensures Dispatched(ids)[p] != Dispatched(ids)[q]
    decreases |ids|
  {
    var before, id := ids[..|ids| - 1], ids[|ids| - 1];
    var d := Dispatched(before);
    WindowIsLast(before);
    if q < |d| {
      DispatchesFarApart(before, p, q);
    } else {
      var window := Last(d, SEEN_CAP);
      assert d[p] == window[p - (|d| - |window|)];
    }
  }

  /** The other way round: an event is held back only if it is among the last 256 dispatched. */
  lemma HeldBackIsRecent(ids: seq<text>, id: text)
    ensures !Dispatches(SeenAfter([], ids), id) <==> id != [] && id in Last(Dispatched(ids), SEEN_CAP)
  {
    WindowIsLast(ids);
  }

  /** Sightings come in batches; the window goes on from batch to batch. */
  lemma {:induction false} SeenAfterBatches(seen: seq<text>, a: seq<text>, b: seq<text>)
    ensures SeenAfter(seen, a + b) == SeenAfter(SeenAfter(seen, a), b)
  {
    if b == [] {
      assert a + b == a;
    } else {
      assert (a + b)[..|a + b| - 1] == a + b[..|b| - 1];
      SeenAfterBatches(seen, a, b[..|b| - 1]);
    }
  }

  function Named(ids: seq<text>): seq<text>
  {
    if ids == [] then []
    else if ids[|ids| - 1] != [] then Named(ids[..|ids| - 1]) + [ids[|ids| - 1]]
    else Named(ids[..|ids| - 1])
  }

  class V2EventBus {
    var pendingAcks: seq<text>
    var seen: seq<text>

    constructor ()
      ensures pendingAcks == [] && seen == []
    {
      pendingAcks, seen := [], [];
    }

    /** Record an event; whether it was already dispatched. */
    method MarkSeen(id: text) returns (already: bool)
      modifies this`seen
      ensures already <==> !Dispatches(old(seen), id)
      ensures seen == After(old(seen), id)
    {
      if id == [] {
        return false;
      }
      if id in seen {
        return true;
      }
      if |seen| >= SEEN_CAP {
        seen := seen[1..];
      }
      seen := seen + [id];
      already := false;
    }

    /** A sighting: acknowledge a named event; whether it is due for dispatch. */
    method Sight(id: text) returns (due: bool)
      modifies this
      ensures pendingAcks == old(pendingAcks) + Named([id])
      ensures seen == After(old(seen), id) && (due <==> Dispatches(old(seen), id))
    {
      assert [id][..0] == [];
      if id != [] {
        pendingAcks := pendingAcks + [id];
      }
      var already := MarkSeen(id);
      due := !already;
    }

    method DrainAcks() returns (acks: seq<text>)
      modifies this`pendingAcks
      ensures acks == old(pendingAcks) && pendingAcks == []
    {
      acks := pendingAcks;
      pendingAcks := [];
    }
  }

  // ---- Taking the events out of a response ----

  const EVENTS: text := [0x65, 0x76, 0x65, 0x6E, 0x74, 0x73]

  function TrimStart(s: seq<byte>): seq<byte>
  {
    if s != [] && IsAsciiWs(s[0]) then TrimStart(s[1..]) else s
  }

  function TrimEnd(s: seq<byte>): seq<byte>
  {
    if s != [] && IsAsciiWs(s[|s| - 1]) then TrimEnd(s[..|s| - 1]) else s
  }

  method TrimAscii(s: seq<byte>) returns (r: seq<byte>)
    ensures r == TrimEnd(TrimStart(s))
  {
    var from := 0;
    assert s[0..] == s;
    while from < |s| && IsAsciiWs(s[from])
      invariant from <= |s| && TrimStart(s[from..]) == TrimStart(s)
    {
      assert s[from..][1..] == s[from + 1..];
      from := from + 1;
    }
    r := s[from..];
    while r != [] && IsAsciiWs(r[|r| - 1])
      invariant TrimEnd(r) == TrimEnd(TrimStart(s))
    {
      r := r[..|r| - 1];
    }
  }

  lemma {:induction false} TrimStartWs(ws: seq<byte>, s: seq<byte>)
    requires AllWs(ws) && (s == [] || !IsAsciiWs(s[0]))
    ensures TrimStart(ws + s) == s
  {
    if ws == [] {
      assert ws + s == s;
    } else {
      assert (ws + s)[1..] == ws[1..] + s;
      TrimStartWs(ws[1..], s);
    }
  }

  lemma {:induction false} TrimEndWs(s: seq<byte>, ws: seq<byte>)
    requires AllWs(ws) && (s == [] || !IsAsciiWs(s[|s| - 1]))
    ensures TrimEnd(s + ws) == s
  {
    if ws == [] {
      assert s + ws == s;
    } else {
      assert (s + ws)[..|s + ws| - 1] == s + ws[..|ws| - 1];
      TrimEndWs(s, ws[..|ws| - 1]);
    }
  }

  /** Text that neither starts nor ends with white space. */
  predicate Tight(s: seq<byte>)
  {
    s == [] || (!IsAsciiWs(s[0]) && !IsAsciiWs(s[|s| - 1]))
  }

  lemma TrimsTo(before: seq<byte>, s: seq<byte>, after: seq<byte>)
    requires AllWs(before) && AllWs(after) && Tight(s)
    ensures TrimEnd(TrimStart(before + (s + after))) == s
  {
    if s == [] {
      assert before + (s + after) == (before + after) + [];
      TrimStartWs(before + after, []);
    } else {
      TrimStartWs(before, s + after);
      TrimEndWs(s, after);
    }
  }

  lemma {:induction false} EntriesEndTight(es: Entries, braces: bool)
    ensures PrintEntries(es, braces) != [] && PrintEntries(es, braces)[|PrintEntries(es, braces)| - 1] == Close(braces)
  {
    if es.Entry? { EntriesEndTight(es.more, braces); }
  }

  lemma PrintIsTight(v: Json, depth: nat)
    requires JsonOk(v, depth)
    ensures Print(v) != [] && Tight(Print(v))
  {
    PrintStarts(v, depth);
    match v
    case Word(_) =>
    case Str(_) =>
    case Num(n) =>
      var t := NumberText(n);
      assert t[0] in t && t[|t| - 1] in t;
      NumberChars(n, t[0]);
      NumberChars(n, t[|t| - 1]);
    case Node(braces, _, es) =>
      EntriesEndTight(es, braces);
  }

  /** The items of an array, from the first to the last. */
  function Items(es: Entries): seq<Json>
  {
    if es == End then [] else [es.value] + Items(es.more)
  }

  /** The array's text from its first item to its last. */
  function ItemsText(es: Entries): seq<byte>
  {
    if es == End then []
    else if es.more == End then Print(es.value)
    else Print(es.value) + (es.gap + ([COMMA] + (es.sep + ItemsText(es.more))))
  }

  /** The white space behind the last item. */
  function LastGap(es: Entries): seq<byte>
  {
    if es == End then [] else if es.more == End then es.gap else LastGap(es.more)
  }

  lemma {:induction false} ItemsTextSplit(es: Entries, depth: nat, seen: set<text>)
    requires EntriesOk(es, false, depth, seen)
    ensures PrintEntries(es, false) == ItemsText(es) + (LastGap(es) + [CLOSE_BRACKET])
    ensures AllWs(LastGap(es)) && Tight(ItemsText(es)) && (es.Entry? ==> ItemsText(es) != [])
  {
    if es.Entry? {
      PrintIsTight(es.value, depth + 1);
      if es.more != End {
        ItemsTextSplit(es.more, depth, seen + LabelNames(es.tag));
        var tail := LastGap(es.more) + [CLOSE_BRACKET];
        Regroup(Print(es.value), es.gap, es.sep, ItemsText(es.more), tail);
      }
    }
  }

  lemma Regroup(v: seq<byte>, gap: seq<byte>, sep: seq<byte>, items: seq<byte>, tail: seq<byte>)
    ensures [] + (v + (gap + ([COMMA] + sep + (items + tail)))) == (v + (gap + ([COMMA] + (sep + items)))) + tail
  {
    Assoc(v, gap + ([COMMA] + (sep + items)), tail);
    Assoc(gap, [COMMA] + (sep + items), tail);
    Assoc([COMMA], sep + items, tail);
    Assoc(sep, items, tail);
    Assoc([COMMA], sep, items + tail);
  }

  /** The member of a complete object, as a tree. */
  function FieldTree(b: seq<byte>, key: text): Option<Json>
  {
    match ParseObject(b)
    case None => None
    case Some(v) => ParseObjectSound(b, v); ObjectsAreLabelled(v.entries, 0, {}); Lookup(v.entries, key)
  }

  predicate IsArray(v: Json)
  {
    v.Node? && !v.braces
  }

  predicate AllObjects(es: Entries)
  {
    es == End || (es.value.Node? && es.value.braces && AllObjects(es.more))
  }

  function Texts(items: seq<Json>): seq<seq<byte>>
  {
    if items == [] then [] else [Print(items[0])] + Texts(items[1..])
  }

  /** The events of a response, or `None` when its batch is refused. */
  function EventsOf(body: seq<byte>): Option<seq<seq<byte>>>
  {
    match FieldTree(body, E.RESULT)
    case None => None
    case Some(result) =>
      match FieldTree(Print(result), EVENTS)
      case None => Some([])
      case Some(events) =>
        if IsArray(events) && AllObjects(events.entries) then Some(Texts(Items(events.entries))) else None
  }

  lemma FieldTreeText(b: seq<byte>, key: text)
    ensures Field(b, key) == match FieldTree(b, key) case None => None case Some(v) => Some(Print(v))
  {
  }

  lemma FieldTreeOk(b: seq<byte>, key: text)
    requires FieldTree(b, key).Some?
    ensures JsonOk(FieldTree(b, key).value, 1)
  {
    var v := ParseObject(b).value;
    ParseObjectSound(b, v);
    ObjectsAreLabelled(v.entries, 0, {});
    LookupOk(v.entries, key, 0, {});
  }

  /** A value nested less deep is still within the bounds. */
  lemma {:induction false} Shallower(v: Json, d: nat, e: nat)
    requires JsonOk(v, d) && e <= d
    ensures JsonOk(v, e)
    decreases v
  {
    if v.Node? { ShallowerEntries(v.entries, v.braces, d, e, {}); }
  }

  lemma {:induction false} ShallowerEntries(es: Entries, braces: bool, d: nat, e: nat, seen: set<text>)
    requires EntriesOk(es, braces, d, seen) && e <= d
    ensures EntriesOk(es, braces, e, seen)
    decreases es
  {
    if es.Entry? {
      Shallower(es.value, d + 1, e + 1);
      ShallowerEntries(es.more, braces, d, e, seen + LabelNames(es.tag));
    }
  }

  /** What stands behind an item: the white space before a comma and more items, or nothing. */
  function BehindItem(es: Entries): seq<byte>
    requires es.Entry?
  {
    if es.more == End then [] else es.gap + ([COMMA] + (es.sep + ItemsText(es.more)))
  }

  lemma BehindTrimmed(es: Entries, depth: nat, seen: set<text>)
    requires es.Entry? && EntriesOk(es, false, depth, seen)
    ensures TrimEnd(TrimStart(BehindItem(es))) == if es.more == End then [] else [COMMA] + (es.sep + ItemsText(es.more))
    ensures Ends(es.value, BehindItem(es)) && ItemsText(es) == Print(es.value) + BehindItem(es)
  {
    if es.more != End {
      ItemsTextSplit(es.more, depth, seen + LabelNames(es.tag));
      CommaTrimmed(es.gap, es.sep, ItemsText(es.more));
    } else {
      assert Print(es.value) + [] == Print(es.value);
    }
  }

  lemma CommaTrimmed(gap: seq<byte>, sep: seq<byte>, items: seq<byte>)
    requires AllWs(gap) && items != [] && Tight(items)
    ensures TrimEnd(TrimStart(gap + ([COMMA] + (sep + items)))) == [COMMA] + (sep + items)
  {
    var tail := [COMMA] + (sep + items);
    assert tail[|tail| - 1] == items[|items| - 1];
    TrimsTo(gap, tail, []);
    assert tail + [] == tail;
  }

  /** The first item of what is left of an array, and what is left behind it. */
  method TakeItem(members: seq<byte>, ghost es: Entries, ghost depth: nat, ghost seen: set<text>)
    returns (item: seq<byte>, rest: seq<byte>)
    requires es.Entry? && EntriesOk(es, false, depth, seen) && members == ItemsText(es)
    ensures item == Print(es.value)
    ensures rest == if es.more == End then [] else [COMMA] + (es.sep + ItemsText(es.more))
  {
    BehindTrimmed(es, depth, seen);
    Shallower(es.value, depth + 1, 0);
    var end := ItemEnd(members, es.value, BehindItem(es));
    item := members[..end];
    rest := TrimAscii(members[end..]);
  }

  method ItemEnd(members: seq<byte>, ghost v: Json, ghost behind: seq<byte>) returns (end: nat)
    requires JsonOk(v, 0) && Ends(v, behind) && members == Print(v) + behind
    ensures end <= |members| && members[..end] == Print(v) && members[end..] == behind
  {
    ScanValueComplete(v, 0, behind);
    assert members[0..] == members;
    end := SkipValue(members, 0);
    assert |members[end..]| == |behind|;
  }

  /** The comma and white space before the next item, if there is one. */
  method SkipComma(behind: seq<byte>, ghost sep: seq<byte>, ghost items: seq<byte>) returns (rest: seq<byte>)
    requires AllWs(sep) && Tight(items)
    requires behind == if items == [] then [] else [COMMA] + (sep + items)
    ensures rest == items
  {
    rest := behind;
    if behind != [] {
      // Where more is left, a valid array has its comma.
      assert behind[0] == COMMA;
      assert behind[1..] == sep + (items + []);
      TrimsTo(sep, items, []);
      rest := TrimAscii(behind[1..]);
    }
  }

  /** Only the text of an object starts and ends with braces. */
  lemma BracesMeanObject(v: Json, depth: nat)
    requires JsonOk(v, depth)
    ensures Print(v) != []
    ensures Print(v)[0] == OPEN_BRACE && Print(v)[|Print(v)| - 1] == CLOSE_BRACE <==> v.Node? && v.braces
  {
    PrintStarts(v, depth);
    if v.Node? { EntriesEndTight(v.entries, v.braces); }
  }

  /** Collect the items of an array that are objects; one that is not spoils the batch. */
  method CollectObjects(first: seq<byte>, ghost all: Entries, ghost depth: nat) returns (r: Option<seq<seq<byte>>>)
    requires EntriesOk(all, false, depth, {}) && first == ItemsText(all)
    ensures r == if AllObjects(all) then Some(Texts(Items(all))) else None
  {
    var members, out := first, [];
    ghost var es, seen := all, {};
    ItemsTextSplit(es, depth, seen);
    assert [] + Texts(Items(all)) == Texts(Items(all));
    while members != []
      invariant EntriesOk(es, false, depth, seen) && members == ItemsText(es) && (es.Entry? <==> members != [])
      invariant AllObjects(all) <==> AllObjects(es)
      invariant Texts(Items(all)) == out + Texts(Items(es))
      decreases es
    {
      var event, behind := TakeItem(members, es, depth, seen);
      BracesMeanObject(es.value, depth + 1);
      if event[0] != OPEN_BRACE || event[|event| - 1] != CLOSE_BRACE {
        return None;
      }
      // What is cut out of a valid text is UTF-8, so it can be taken as it is.
      PrintDecodes(es.value, depth + 1);
      assert DecodeAll(event).Some?;
      OneMoreText(out, es);
      out := out + [event];
      seen := seen + LabelNames(es.tag);
      ItemsTextSplit(es.more, depth, seen);
      members := SkipComma(behind, es.sep, ItemsText(es.more));
      es := es.more;
    }
    assert out + [] == out;
    r := Some(out);
  }

  lemma OneMoreText(out: seq<seq<byte>>, es: Entries)
    requires es.Entry?
    ensures out + Texts(Items(es)) == (out + [Print(es.value)]) + Texts(Items(es.more))
  {
    assert Items(es)[1..] == Items(es.more);
    Assoc(out, [Print(es.value)], Texts(Items(es.more)));
  }

  /** The object members of `result.events`. */
  method ExtractEventObjects(body: seq<byte>) returns (r: Option<seq<seq<byte>>>)
    ensures r == EventsOf(body)
  {
    var result := ObjectField(body, E.RESULT);
    FieldTreeText(body, E.RESULT);
    if result == None {
      return None;
    }
    var events := ObjectField(result.value, EVENTS);
    FieldTreeText(result.value, EVENTS);
    if events == None {
      return Some([]);
    }
    r := ReadEvents(events.value, FieldTree(result.value, EVENTS).value) by {
      FieldTreeOk(result.value, EVENTS);
    }
  }

  method ReadEvents(raw: seq<byte>, ghost v: Json) returns (r: Option<seq<seq<byte>>>)
    requires JsonOk(v, 1) && raw == Print(v)
    ensures r == if IsArray(v) && AllObjects(v.entries) then Some(Texts(Items(v.entries))) else None
  {
    PrintStarts(v, 1);
    if raw[0] != OPEN_BRACKET {
      return None;
    }
    ItemsTextSplit(v.entries, 1, {});
    var members := StripBrackets(raw, v.lead, ItemsText(v.entries), LastGap(v.entries));
    r := CollectObjects(members, v.entries, 1);
  }

  /** What stands between the brackets of an array, trimmed. */
  method StripBrackets(raw: seq<byte>, ghost lead: seq<byte>, ghost items: seq<byte>, ghost gap: seq<byte>)
    returns (members: seq<byte>)
    requires AllWs(lead) && AllWs(gap) && Tight(items)
    requires raw == [OPEN_BRACKET] + lead + (items + (gap + [CLOSE_BRACKET]))
    ensures members == items
  {
    BetweenBrackets(lead, items, gap);
    TrimsTo(lead, items, gap);
    members := TrimAscii(raw[1..|raw| - 1]);
  }

  lemma BetweenBrackets(lead: seq<byte>, items: seq<byte>, gap: seq<byte>)
    ensures
      var raw := [OPEN_BRACKET] + lead + (items + (gap + [CLOSE_BRACKET]));
      raw[1..|raw| - 1] == lead + (items + gap)
  {
    var inner := lead + (items + gap);
    assert [OPEN_BRACKET] + lead + (items + (gap + [CLOSE_BRACKET])) == [OPEN_BRACKET] + inner + [CLOSE_BRACKET];
  }

  /** Either every element of the array is an object and all are taken, in order, or none is. */
  lemma {:induction false} TakenInOrder(es: Entries, k: nat)
    requires k < |Items(es)|
    ensures |Texts(Items(es))| == |Items(es)| && Texts(Items(es))[k] == Print(Items(es)[k])
    ensures AllObjects(es) ==> Items(es)[k].Node? && Items(es)[k].braces
    decreases es
  {
    assert Items(es)[1..] == Items(es.more);
    if k > 0 {
      TakenInOrder(es.more, k - 1);
    } else if es.more != End {
      TakenInOrder(es.more, 0);
    }
  }

  lemma {:induction false} ItemOk(es: Entries, depth: nat, seen: set<text>, k: nat)
    requires EntriesOk(es, false, depth, seen) && k < |Items(es)|
    ensures JsonOk(Items(es)[k], depth + 1)
    decreases es
  {
    if k > 0 { ItemOk(es.more, depth, seen + LabelNames(es.tag), k - 1); }
  }

  // ---- Handling a response ----

  /** A field of the event, or of its parameters. */
  function LookupField(b: seq<byte>, key: text): Option<seq<byte>>
  {
    match Field(b, key)
    case Some(raw) => Some(raw)
    case None =>
      match Field(b, E.KEYS.params)
      case None => None
      case Some(params) => Field(params, key)
  }

  /** The identifier of an event; an event without one has the empty identifier. */
  function EventId(event: seq<byte>): text
  {
    match LookupField(event, E.KEYS.id)
    case None => []
    case Some(raw) => match Decoded(raw) case None => [] case Some(id) => id
  }

  function EventIds(events: seq<seq<byte>>): (ids: seq<text>)
    ensures |ids| == |events|
  {
    if events == [] then [] else EventIds(events[..|events| - 1]) + [EventId(events[|events| - 1])]
  }

  /** The events of a batch that are dispatched, given their identifiers and the window before them. */
  function Fresh<T>(seen: seq<text>, events: seq<T>, ids: seq<text>): seq<T>
    requires |ids| == |events|
  {
    if events == [] then []
    else
      var n := |events| - 1;
      var before := Fresh(seen, events[..n], ids[..n]);
      if Dispatches(SeenAfter(seen, ids[..n]), ids[n]) then before + [events[n]] else before
  }

  lemma DispatchStep(ids: seq<text>, id: text)
    ensures Dispatched(ids + [id]) ==
      if id != [] && id !in SeenAfter([], ids) then Dispatched(ids) + [id] else Dispatched(ids)
  {
    assert (ids + [id])[..|ids + [id]| - 1] == ids;
  }

  lemma FreshStep(seen: seq<text>, ids: seq<text>, id: text)
    ensures Named(Fresh(seen, ids + [id], ids + [id])) ==
      if id != [] && id !in SeenAfter(seen, ids) then Named(Fresh(seen, ids, ids)) + [id]
      else Named(Fresh(seen, ids, ids))
  {
    var before := Fresh(seen, ids, ids);
    assert (ids + [id])[..|ids|] == ids;
    assert (before + [id])[..|before|] == before;
  }

  /** What a batch dispatches comes behind what was dispatched before it, so the gaps hold across batches. */
  lemma {:induction false} DispatchedByBatch(past: seq<text>, ids: seq<text>)
    ensures Dispatched(past + ids) == Dispatched(past) + Named(Fresh(SeenAfter([], past), ids, ids))
  {
    if ids == [] {
      assert past + ids == past;
      assert Dispatched(past) + [] == Dispatched(past);
    } else {
      var before, id := ids[..|ids| - 1], ids[|ids| - 1];
      assert ids == before + [id];
      Assoc(past, before, [id]);
      DispatchedByBatch(past, before);
      SeenAfterBatches([], past, before);
      DispatchStep(past + before, id);
      FreshStep(SeenAfter([], past), before, id);
      Assoc(Dispatched(past), Named(Fresh(SeenAfter([], past), before, before)), [id]);
    }
  }

  method FindField(b: seq<byte>, key: text) returns (r: Option<seq<byte>>)
    ensures r == LookupField(b, key)
  {
    r := ObjectField(b, key);
    if r == None {
      var params := ObjectField(b, E.KEYS.params);
      if params.Some? {
        r := ObjectField(params.value, key);
      }
    }
  }

  /** The identifier of the next event of a batch. */
  method ReadEventId(events: seq<seq<byte>>, k: nat) returns (id: text)
    requires k < |events|
    ensures EventIds(events[..k + 1]) == EventIds(events[..k]) + [id]
  {
    assert events[..k + 1][..k] == events[..k];
    var raw := FindField(events[k], E.KEYS.id);
    if raw == None {
      return [];
    }
    var decoded := DecodeJsonString(raw.value);
    id := if decoded == None then [] else decoded.value;
  }

  lemma BatchStep(seen: seq<text>, events: seq<seq<byte>>, event: seq<byte>, ids: seq<text>, id: text)
    requires |ids| == |events|
    ensures SeenAfter(seen, ids + [id]) == After(SeenAfter(seen, ids), id)
    ensures Named(ids + [id]) == Named(ids) + Named([id])
    ensures Fresh(seen, events + [event], ids + [id]) ==
      Fresh(seen, events, ids) + (if Dispatches(SeenAfter(seen, ids), id) then [event] else [])
  {
    assert (ids + [id])[..|ids|] == ids && (events + [event])[..|events|] == events;
    assert [id][..0] == [];
  }

  /** Acknowledge every named event of a response; return those due for dispatch. */
  method ProcessEvents(bus: V2EventBus, body: seq<byte>) returns (due: seq<seq<byte>>)
    modifies bus
    ensures EventsOf(body) == None ==> due == [] && unchanged(bus)
    ensures EventsOf(body).Some? ==>
      var events := EventsOf(body).value;
      && bus.pendingAcks == old(bus.pendingAcks) + Named(EventIds(events))
      && bus.seen == SeenAfter(old(bus.seen), EventIds(events))
      && due == Fresh(old(bus.seen), events, EventIds(events))
  {
    var batch := ExtractEventObjects(body);
    if batch == None {
      return [];
    }
    due := ProcessBatch(bus, batch.value);
  }

  /** Handle the next event of a batch. */
  method ProcessOne(bus: V2EventBus, events: seq<seq<byte>>, k: nat, due: seq<seq<byte>>)
    returns (id: text, due': seq<seq<byte>>)
    requires k < |events|
    modifies bus
    ensures EventIds(events[..k + 1]) == EventIds(events[..k]) + [id]
    ensures bus.pendingAcks == old(bus.pendingAcks) + Named([id]) && bus.seen == After(old(bus.seen), id)
    ensures due' == due + (if Dispatches(old(bus.seen), id) then [events[k]] else [])
  {
    id := ReadEventId(events, k);
    var isDue := bus.Sight(id);
    due' := if isDue then due + [events[k]] else due + [];
  }

  /** What has been done for the first events of a batch. */
  ghost predicate BatchDone(acks: seq<text>, seen: seq<text>, due: seq<seq<byte>>, acks0: seq<text>, seen0: seq<text>,
                            events: seq<seq<byte>>, ids: seq<text>)
    requires |ids| == |events|
  {
    acks == acks0 + Named(ids) && seen == SeenAfter(seen0, ids) && due == Fresh(seen0, events, ids)
  }

  lemma BatchGoesOn(acks: seq<text>, seen: seq<text>, due: seq<seq<byte>>, acks0: seq<text>, seen0: seq<text>,
                    events: seq<seq<byte>>, ids: seq<text>, event: seq<byte>, id: text)
    requires |ids| == |events| && BatchDone(acks, seen, due, acks0, seen0, events, ids)
    ensures BatchDone(acks + Named([id]), After(seen, id), due + (if Dispatches(seen, id) then [event] else []),
                      acks0, seen0, events + [event], ids + [id])
  {
    BatchStep(seen0, events, event, ids, id);
    Assoc(acks0, Named(ids), Named([id]));
  }

  lemma TakeNext<T>(s: seq<T>, k: nat)
    requires k < |s|
    ensures s[..k + 1] == s[..k] + [s[k]]
  {
  }

  /** One more event of the batch. */
  method ProcessNext(bus: V2EventBus, events: seq<seq<byte>>, k: nat, due: seq<seq<byte>>,
                     ghost acks0: seq<text>, ghost seen0: seq<text>)
    returns (due': seq<seq<byte>>)
    requires k < |events|
    requires BatchDone(bus.pendingAcks, bus.seen, due, acks0, seen0, events[..k], EventIds(events[..k]))
    modifies bus
    ensures BatchDone(bus.pendingAcks, bus.seen, due', acks0, seen0, events[..k + 1], EventIds(events[..k + 1]))
  {
    ghost var acks, seen, ids := bus.pendingAcks, bus.seen, EventIds(events[..k]);
    var id;
    id, due' := ProcessOne(bus, events, k, due);
    BatchGoesOn(acks, seen, due, acks0, seen0, events[..k], ids, events[k], id);
    TakeNext(events, k);
  }

  method ProcessBatch(bus: V2EventBus, events: seq<seq<byte>>) returns (due: seq<seq<byte>>)
    modifies bus
    ensures BatchDone(bus.pendingAcks, bus.seen, due, old(bus.pendingAcks), old(bus.seen), events, EventIds(events))
  {
    due := [];
    ghost var acks, seen := bus.pendingAcks, bus.seen;
    assert acks + [] == acks;
    for k := 0 to |events|
      invariant BatchDone(bus.pendingAcks, bus.seen, due, acks, seen, events[..k], EventIds(events[..k]))
    {
      due := ProcessNext(bus, events, k, due, acks, seen);
    }
    assert events[..|events|] == events;
  }
}
