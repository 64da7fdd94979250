/** Sums over lists, and that they do not depend on the order of the list. */
module Totals {

  function One(b: bool): nat {
    if b then 1 else 0
  }

  function Total<K>(f: K -> nat, s: seq<K>): nat {
    if s == [] then 0 else Total(f, s[..|s| - 1]) + f(s[|s| - 1])
  }

  lemma TotalSnoc<K>(f: K -> nat, a: seq<K>, x: K)
    ensures Total(f, a + [x]) == Total(f, a) + f(x)
  {
    assert (a + [x])[..|a + [x]| - 1] == a;
  }

  lemma {:induction false} TotalConcat<K>(f: K -> nat, a: seq<K>, b: seq<K>)
    ensures Total(f, a + b) == Total(f, a) + Total(f, b)
    decreases |b|
  {
    if b == [] {
      assert a + b == a;
    } else {
      var k := |b| - 1;
      TotalConcat(f, a, b[..k]);
      TotalSnoc(f, a + b[..k], b[k]);
      assert a + b == a + b[..k] + [b[k]];
    }
  }

  lemma TotalAround<K>(f: K -> nat, a: seq<K>, x: K, b: seq<K>)
    ensures Total(f, a + [x] + b) == Total(f, a + b) + f(x)
  {
    TotalConcat(f, a + [x], b);
    TotalSnoc(f, a, x);
    TotalConcat(f, a, b);
  }

  /** Leaving one term out. */
  lemma TotalWithout<K>(f: K -> nat, s: seq<K>, i: nat, x: K)
    requires i < |s| && s[i] == x
    ensures Total(f, s) == Total(f, s[..i] + s[i + 1..]) + f(x)
  {
    var t := s[..i] + [x] + s[i + 1..];
    assert Total(f, t) == Total(f, s[..i] + s[i + 1..]) + f(x) by {
      TotalAround(f, s[..i], x, s[i + 1..]);
    }
    assert s == t;
  }

  lemma RemoveOne<K>(a: seq<K>, b: seq<K>, i: nat)
    requires a != [] && multiset(a) == multiset(b) && i < |b| && a[|a| - 1] == b[i]
    ensures multiset(a[..|a| - 1]) == multiset(b[..i] + b[i + 1..])
  {
    var x := b[i];
    assert a == a[..|a| - 1] + [x];
    assert b == b[..i] + [x] + b[i + 1..];
    var m, n := multiset(a[..|a| - 1]), multiset(b[..i] + b[i + 1..]);
    assert multiset(a) == m + multiset{x} && multiset(b) == n + multiset{x};
    assert forall y :: m[y] == (m + multiset{x})[y] - multiset{x}[y] == n[y];
  }

  /** A total does not depend on the order of the terms. */
  lemma {:induction false} TotalPermutes<K>(f: K -> nat, a: seq<K>, b: seq<K>)
    requires multiset(a) == multiset(b)
    ensures Total(f, a) == Total(f, b)
    decreases |a|
  {
    if a == [] {
      assert |multiset(b)| == 0;
    } else {
      var k := |a| - 1;
      assert a[k] in multiset(b);
      var i :| 0 <= i < |b| && b[i] == a[k];
      RemoveOne(a, b, i);
      TotalPermutes(f, a[..k], b[..i] + b[i + 1..]);
      TotalWithout(f, b, i, a[k]);
    }
  }

  function Map<A, B>(g: A -> B, a: seq<A>): seq<B> {
    seq(|a|, i requires 0 <= i < |a| => g(a[i]))
  }

  function Hits<A, B(==)>(g: A -> B, y: B): A -> nat {
    x => One(g(x) == y)
  }

  lemma {:induction false} MapCounts<A, B>(g: A -> B, a: seq<A>, y: B)
    ensures multiset(Map(g, a))[y] == Total(Hits(g, y), a)
  {
    if a != [] {
      var k := |a| - 1;
      MapCounts(g, a[..k], y);
      assert Map(g, a) == Map(g, a[..k]) + [g(a[k])];
    }
  }

  /** Mapping two permutations of a list gives every value equally often. */
  lemma MapPermutes<A, B>(g: A -> B, a: seq<A>, b: seq<A>, y: B)
    requires multiset(a) == multiset(b)
    ensures multiset(Map(g, a))[y] == multiset(Map(g, b))[y]
  {
    MapCounts(g, a, y);
    MapCounts(g, b, y);
    TotalPermutes(Hits(g, y), a, b);
  }
}
