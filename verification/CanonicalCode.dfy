/**
  The rule by which section 3.2.2 of RFC 1951 gives codes to symbols: shorter codes come first,
  codes of one length in the order of their symbols, each the one after its predecessor.
 */
module CanonicalCode {
  import opened Bits
  import opened Huffman
  import opened DeflateTables

  predicate IsCoded(lens: seq<nat>, s: nat)
  {
    s < |lens| && lens[s] > 0
  }

  predicate Precedes(lens: seq<nat>, s: nat, t: nat)
    requires IsCoded(lens, s) && IsCoded(lens, t)
  {
    lens[s] < lens[t] || (lens[s] == lens[t] && s < t)
  }

  /** `t` comes right behind `s`. */
  ghost predicate ComesNext(lens: seq<nat>, s: nat, t: nat)
    requires IsCoded(lens, s) && IsCoded(lens, t)
  {
    Precedes(lens, s, t) && forall u :: IsCoded(lens, u) ==> !(Precedes(lens, s, u) && Precedes(lens, u, t))
  }

  ghost predicate ComesFirst(lens: seq<nat>, s: nat)
    requires IsCoded(lens, s)
  {
    forall u :: IsCoded(lens, u) ==> !Precedes(lens, u, s)
  }

  lemma {:induction false} CountNone(lens: seq<nat>, l: nat, a: nat, b: nat)
    requires a <= b <= |lens| && forall u :: a <= u < b ==> lens[u] != l
    ensures Count(lens, l, b) == Count(lens, l, a)
  {
    if a < b { CountNone(lens, l, a, b - 1); }
  }

  lemma NoneOfLength(lens: seq<nat>, l: nat)
    requires forall u :: 0 <= u < |lens| ==> lens[u] != l
    ensures BlCount(lens, l) == 0
  {
    CountNone(lens, l, 0, |lens|);
  }

  lemma NextSameLength(lens: seq<nat>, s: nat, t: nat)
    requires IsCoded(lens, s) && IsCoded(lens, t) && ComesNext(lens, s, t) && lens[s] == lens[t]
    ensures Code(lens, t) == Code(lens, s) + 1
  {
    forall u | s + 1 <= u < t ensures lens[u] != lens[s] {
      if lens[u] == lens[s] { assert Precedes(lens, s, u) && Precedes(lens, u, t); }
    }
    CountNone(lens, lens[s], s + 1, t);
  }

  /** With `s` the last of its length and none of the lengths up to that of `t`. */
  lemma UsedUpTo(lens: seq<nat>, s: nat, t: nat, n: nat)
    requires IsCoded(lens, s) && IsCoded(lens, t) && ComesNext(lens, s, t) && lens[t] == lens[s] + n + 1
    ensures Used(lens, lens[s] + n) == Shl(Code(lens, s) + 1, n)
  {
    var l := lens[s];
    forall u | s + 1 <= u < |lens| ensures lens[u] != l {
      if lens[u] == l { assert Precedes(lens, s, u) && Precedes(lens, u, t); }
    }
    CountNone(lens, l, s + 1, |lens|);
    forall j | l < j <= l + n ensures BlCount(lens, j) == 0 {
      forall u | 0 <= u < |lens| ensures lens[u] != j {
        if lens[u] == j { assert Precedes(lens, s, u) && Precedes(lens, u, t); }
      }
      NoneOfLength(lens, j);
    }
    Doubling(lens, l, n);
  }

  lemma FirstOfLength(lens: seq<nat>, s: nat, t: nat)
    requires IsCoded(lens, s) && IsCoded(lens, t) && ComesNext(lens, s, t) && lens[s] < lens[t]
    ensures Code(lens, t) == FirstCode(lens, lens[t])
  {
    forall u | 0 <= u < t ensures lens[u] != lens[t] {
      if lens[u] == lens[t] { assert Precedes(lens, s, u) && Precedes(lens, u, t); }
    }
    CountNone(lens, lens[t], 0, t);
  }

  /** The code of each symbol is the one after its predecessor's, filled up with zeros to its length. */
  lemma NextCodeInOrder(lens: seq<nat>, s: nat, t: nat)
    requires IsCoded(lens, s) && IsCoded(lens, t) && ComesNext(lens, s, t)
    ensures Code(lens, t) == Shl(Code(lens, s) + 1, lens[t] - lens[s])
  {
    if lens[s] == lens[t] {
      NextSameLength(lens, s, t);
    } else {
      UsedUpTo(lens, s, t, lens[t] - lens[s] - 1);
      FirstOfLength(lens, s, t);
    }
  }

  lemma {:induction false} NothingUsed(lens: seq<nat>, l: nat)
    requires forall u :: 0 <= u < |lens| && lens[u] > 0 ==> lens[u] > l
    ensures Used(lens, l) == 0
  {
    if l > 0 {
      NothingUsed(lens, l - 1);
      NoneOfLength(lens, l);
    }
  }

  /** The first symbol has the code of all zeros. */
  lemma FirstCodeIsZero(lens: seq<nat>, s: nat)
    requires IsCoded(lens, s) && ComesFirst(lens, s)
    ensures Code(lens, s) == 0
  {
    var l := lens[s];
    forall u | 0 <= u < |lens| && lens[u] > 0 ensures lens[u] > l - 1 {
      assert !Precedes(lens, u, s);
    }
    NothingUsed(lens, l - 1);
    forall u | 0 <= u < s ensures lens[u] != l {
      if lens[u] == l { assert Precedes(lens, u, s); }
    }
    CountNone(lens, l, 0, s);
  }
}
