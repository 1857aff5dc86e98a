/** The depth bound, said of whole documents: at most 32 containers stand around any value. */
module JsonDepth {
  import opened Utf8
  import opened JsonStrings
  import opened JsonGrammar

  function Max(a: nat, b: nat): nat
  {
    if a < b then b else a
  }

  /** How many containers stand around the innermost value inside `v`. */
  function Nesting(v: Json): nat
    decreases v
  {
    if v.Node? then Innermost(v.entries) else 0
  }

  function Innermost(es: Entries): nat
    decreases es
  {
    if es == End then 0 else Max(1 + Nesting(es.value), Innermost(es.more))
  }

  /** A value that stands at one depth stands at every depth that leaves room for what is in it, and no other. */
  lemma {:induction false} DepthExact(v: Json, d: nat, e: nat)
    requires JsonOk(v, d)
    ensures d + Nesting(v) <= 32
    ensures JsonOk(v, e) <==> e + Nesting(v) <= 32
    decreases v
  {
    if v.Node? { EntriesDepth(v.entries, v.braces, d, e, {}); }
  }

  lemma {:induction false} EntriesDepth(es: Entries, braces: bool, d: nat, e: nat, seen: set<text>)
    requires EntriesOk(es, braces, d, seen) && d <= 32
    ensures d + Innermost(es) <= 32
    ensures EntriesOk(es, braces, e, seen) && e <= 32 <==> e + Innermost(es) <= 32
    decreases es
  {
    if es.Entry? {
      DepthExact(es.value, d + 1, e + 1);
      EntriesDepth(es.more, braces, d, e, seen + LabelNames(es.tag));
    }
  }
}
