/** Facts about sequences that the models share. */
module Sequences {
  predicate Ascending(s: seq<int>) {
    forall i, j :: 0 <= i < j < |s| ==> s[i] < s[j]
  }

  lemma Associate<T>(a: seq<T>, b: seq<T>, c: seq<T>)
    ensures (a + b) + c == a + (b + c)
  {
  }

  lemma Rejoin<T>(s: seq<T>, i: nat, k: nat)
    requires i <= k <= |s|
    ensures s[i..k] + s[k..] == s[i..] && s[..i] + s[i..] == s
  {
  }

  lemma FirstOfThree<T>(x: T, a: seq<T>, b: seq<T>)
    ensures (([x] + a) + b)[0] == x && (([x] + a) + b)[1..] == a + b
  {
  }
}
