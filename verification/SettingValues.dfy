/** What each setting is worth, said of the raw text found under its name. */
module SettingValues {
  import opened Bits
  import opened Utf8
  import opened JsonStrings
  import opened JsonNumbers
  import opened JsonGrammar
  import opened JsonScan
  import opened JsonText
  import opened Settings
  import opened SettingsAgree
  import opened Events

  const TRUE: seq<byte> := [0x74, 0x72, 0x75, 0x65]
  const FALSE: seq<byte> := [0x66, 0x61, 0x6C, 0x73, 0x65]
  const NULL: seq<byte> := [0x6E, 0x75, 0x6C, 0x6C]

  lemma RawIsTyped(w: Json)
    requires JsonOk(w, 1)
    ensures ReadRaw(Print(w)) == Some(Typed(w))
  {
    ScanValueComplete(w, 1, []);
    assert Print(w) + [] == Print(w);
  }

  lemma WordValues(w: Json)
    requires JsonOk(w, 1) && w.Word?
    ensures ReadRaw(Print(w)) == Some(
      if Print(w) == TRUE then BoolValue(true) else if Print(w) == FALSE then BoolValue(false) else NullValue)
    ensures Print(w) == TRUE || Print(w) == FALSE || Print(w) == NULL
  {
    RawIsTyped(w);
    assert TRUE == TRUE_WORD && FALSE == FALSE_WORD && NULL == NULL_WORD;
    assert TRUE[0] != FALSE[0] && NULL[0] != FALSE[0] && NULL[0] != TRUE[0];
  }

  lemma StringValues(w: Json)
    requires JsonOk(w, 1) && w.Str?
    ensures Decoded(Print(w)).Some? && ReadRaw(Print(w)) == Some(StrValue(Decoded(Print(w)).value))
  {
    RawIsTyped(w);
    SpellingExact(Print(w), w.pieces);
  }

  lemma {:induction false} TypedItemAt(es: Entries, k: nat)
    requires k < |Items(es)|
    ensures |TypedItems(es)| == |Items(es)| && TypedItems(es)[k] == Typed(Items(es)[k])
    decreases es
  {
    assert Items(es)[1..] == Items(es.more);
    if k > 0 {
      TypedItemAt(es.more, k - 1);
    } else if es.more != End {
      TypedItemAt(es.more, 0);
    }
  }

  /** Each item of an array is worth what it is worth on its own. */
  lemma ArrayValues(w: Json, k: nat)
    requires JsonOk(w, 1) && IsArray(w) && k < |Items(w.entries)|
    ensures
      var r := ReadRaw(Print(w));
      && r.Some? && r.value.Array? && |r.value.items| == |Items(w.entries)|
      && ReadRaw(Print(Items(w.entries)[k])) == Some(r.value.items[k])
  {
    RawIsTyped(w);
    TypedItemAt(w.entries, k);
    ItemOk(w.entries, 1, {}, k);
    Shallower(Items(w.entries)[k], 2, 1);
    RawIsTyped(Items(w.entries)[k]);
  }

  /**
    The value of a setting by its text: `true`, `false` and `null` by themselves, a string the text
    it spells, a number its own source, an object nothing; the items of an array follow by `ArrayValues`.
   */
  lemma SettingValue(w: Json)
    requires JsonOk(w, 1)
    ensures ReadRaw(Print(w)).Some?
    ensures
      var raw, value := Print(w), ReadRaw(Print(w)).value;
      && (raw == TRUE ==> value == BoolValue(true)) && (raw == FALSE ==> value == BoolValue(false))
      && (raw == NULL ==> value == NullValue)
      && (w.Str? ==> Decoded(raw).Some? && value == StrValue(Decoded(raw).value))
      && (w.Num? ==> value == NumValue(raw))
      && (w.Node? && w.braces ==> value == NullValue)
      && (IsArray(w) ==> value.Array?)
  {
    PrintStarts(w, 1);
    match w
    case Word(_) => WordValues(w);
    case Str(_) => StringValues(w);
    case Num(n) =>
      RawIsTyped(w);
      var t := NumberText(n);
      assert t[0] in t;
      NumberChars(n, t[0]);
    case Node(_, _, _) => RawIsTyped(w);
  }
}
