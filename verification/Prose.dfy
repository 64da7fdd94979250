/** Prose that is already one sentence per line: joined and split again, it comes back. */
module Prose {
  import opened Wrappers
  import opened Sequences
  import opened Text
  import opened Abbreviations
  import opened Sentences

  /** A sentence that ends where another one can begin. */
  ghost predicate Closed(a: string) {
    IsOneSentence(a) && exists i: nat :: 0 < i < |a| && EndsWord(a[i - 1]) && Ending(a, i, |a|)
  }

  /** Sentences of which each but the last is closed and each but the first begins as a sentence can. */
  ghost predicate IsProse(ss: seq<string>) {
    && ss != [] && IsStripped(ss[0]) && IsOneSentence(ss[0])
    && (|ss| > 1 ==> Closed(ss[0]) && ss[1] != "" && BeginsSentence(ss[1][0]) && IsProse(ss[1..]))
  }

  // ----- Pieces between ends -----

  /** The pieces of a text between given ends, whatever they are; `i` is being examined. */
  function Pieces(end: nat -> Option<Cut>, s: string, start: nat, i: nat): seq<string>
    requires start <= i <= |s|
    decreases |s| - i
  {
    if i == |s| then [s[start..|s|]]
    else
      match end(i)
      case None => Pieces(end, s, start, i + 1)
      case Some(cut) =>
        if i < cut.blank < cut.next < |s| then [s[start..cut.blank]] + Pieces(end, s, cut.next, cut.next)
        else Pieces(end, s, start, i + 1)
  }

  lemma {:induction false} SkipTo(end: nat -> Option<Cut>, s: string, start: nat, i: nat, j: nat)
    requires start <= i <= j <= |s| && forall k: nat :: i <= k < j ==> end(k) == None
    ensures Pieces(end, s, start, i) == Pieces(end, s, start, j)
    decreases j - i
  {
    if i < j { SkipTo(end, s, start, i + 1, j); }
  }

  /** What `g` lists at `k`, `f` lists `p` further on. */
  predicate ShiftAt(f: nat -> Option<Cut>, g: nat -> Option<Cut>, p: nat, k: nat) {
    f(p + k) == match g(k) case None => None case Some(cut) => Some(Cut(p + cut.blank, p + cut.next))
  }

  predicate Shift(f: nat -> Option<Cut>, g: nat -> Option<Cut>, p: nat, n: nat) {
    n == 0 || (Shift(f, g, p, n - 1) && ShiftAt(f, g, p, n - 1))
  }

  lemma {:induction false} ShiftHas(f: nat -> Option<Cut>, g: nat -> Option<Cut>, p: nat, n: nat, k: nat)
    requires Shift(f, g, p, n) && k < n
    ensures ShiftAt(f, g, p, k)
  {
    if k < n - 1 { ShiftHas(f, g, p, n - 1, k); }
  }

  lemma SameSlice(pre: string, rest: string, a: nat, b: nat)
    requires a <= b <= |rest|
    ensures (pre + rest)[|pre| + a..|pre| + b] == rest[a..b]
  {
  }

  lemma PiecesAtCut(end: nat -> Option<Cut>, s: string, start: nat, i: nat, cut: Cut)
    requires start <= i < cut.blank < cut.next < |s| && end(i) == Some(cut)
    ensures Pieces(end, s, start, i) == [s[start..cut.blank]] + Pieces(end, s, cut.next, cut.next)
  {
  }

  lemma PiecesPass(end: nat -> Option<Cut>, s: string, start: nat, i: nat)
    requires start <= i < |s|
    requires end(i).Some? ==> !(i < end(i).value.blank < end(i).value.next < |s|)
    ensures Pieces(end, s, start, i) == Pieces(end, s, start, i + 1)
  {
  }

  lemma ShiftCut(f: nat -> Option<Cut>, g: nat -> Option<Cut>, s: string, pre: string, rest: string, start: nat, k: nat, cut: Cut)
    requires s == pre + rest && start <= k < cut.blank < cut.next < |rest| && g(k) == Some(cut) && ShiftAt(f, g, |pre|, k)
    requires Pieces(f, s, |pre| + cut.next, |pre| + cut.next) == Pieces(g, rest, cut.next, cut.next)
    ensures Pieces(f, s, |pre| + start, |pre| + k) == Pieces(g, rest, start, k)
  {
    PiecesAtCut(f, s, |pre| + start, |pre| + k, Cut(|pre| + cut.blank, |pre| + cut.next));
    PiecesAtCut(g, rest, start, k, cut);
    SameSlice(pre, rest, start, cut.blank);
  }

  lemma ShiftPass(f: nat -> Option<Cut>, g: nat -> Option<Cut>, s: string, pre: string, rest: string, start: nat, k: nat)
    requires s == pre + rest && start <= k < |rest| && ShiftAt(f, g, |pre|, k)
    requires g(k).Some? ==> !(k < g(k).value.blank < g(k).value.next < |rest|)
    requires Pieces(f, s, |pre| + start, |pre| + (k + 1)) == Pieces(g, rest, start, k + 1)
    ensures Pieces(f, s, |pre| + start, |pre| + k) == Pieces(g, rest, start, k)
  {
    PiecesPass(f, s, |pre| + start, |pre| + k);
    PiecesPass(g, rest, start, k);
  }

  lemma {:induction false} PiecesShift(f: nat -> Option<Cut>, g: nat -> Option<Cut>, s: string, pre: string, rest: string,
                                       start: nat, k: nat)
    requires s == pre + rest && Shift(f, g, |pre|, |rest|) && start <= k <= |rest|
    ensures Pieces(f, s, |pre| + start, |pre| + k) == Pieces(g, rest, start, k)
    decreases |rest| - k
  {
    if k == |rest| {
      SameSlice(pre, rest, start, k);
    } else {
      ShiftHas(f, g, |pre|, |rest|, k);
      if g(k).Some? && k < g(k).value.blank < g(k).value.next < |rest| {
        var cut := g(k).value;
        PiecesShift(f, g, s, pre, rest, cut.next, cut.next);
        ShiftCut(f, g, s, pre, rest, start, k, cut);
      } else {
        PiecesShift(f, g, s, pre, rest, start, k + 1);
        ShiftPass(f, g, s, pre, rest, start, k);
      }
    }
  }

  /** The ends listed are the sentence ends of the text. */
  ghost predicate AreEnds(s: string, end: nat -> Option<Cut>) {
    forall k: nat, b: nat, n: nat {:trigger SentenceEnd(s, k, b, n)} :: end(k) == Some(Cut(b, n)) <==> SentenceEnd(s, k, b, n)
  }

  function EndsOf(s: string): nat -> Option<Cut> {
    (k: nat) => if k < |s| then EndAt(s, k) else None
  }

  lemma EndsAreEnds(s: string)
    ensures AreEnds(s, EndsOf(s))
  {
    forall k: nat, b: nat, n: nat ensures EndsOf(s)(k) == Some(Cut(b, n)) <==> SentenceEnd(s, k, b, n) {
      if k < |s| { EndAtIsExact(s, k, b, n); }
    }
  }

  /** The pieces between the sentence ends are what the splitter gathers. */
  lemma {:induction false} GatheredPieces(s: string, start: nat, i: nat)
    requires start <= i <= |s|
    ensures Gather(Parts(s, start, i)) == Pieces(EndsOf(s), s, start, i)
    decreases |s| - i
  {
    if i == |s| {
      assert s[start..] == s[start..|s|];
    } else if EndAt(s, i).None? {
      GatheredPieces(s, start, i + 1);
    } else {
      var cut := EndAt(s, i).value;
      SentenceAtCut(s, start, i, cut);
      GatheredPieces(s, cut.next, cut.next);
    }
  }

  // ----- The cut behind the first sentence -----

  lemma EndInFront(s: string, a: string, k: nat, b: nat, n: nat)
    requires a <= s && n < |a| && SentenceEnd(s, k, b, n)
    ensures SentenceEnd(a, k, b, n)
  {
    assert forall j :: 0 <= j < |a| ==> a[j] == s[j];
    assert Marks(s, k, b) ==> Marks(a, k, b);
    assert Marks(s, k, b - 1) ==> Marks(a, k, b - 1);
  }

  /** Before its ending begins, a closed sentence has no end, whatever follows it. */
  lemma NoEarlierEnd(s: string, a: string, i: nat, k: nat, b: nat, n: nat)
    requires a <= s && IsOneSentence(a) && 0 < i < |a| && EndsWord(a[i - 1]) && Ending(a, i, |a|) && k < i
    ensures !SentenceEnd(s, k, b, n)
  {
    if SentenceEnd(s, k, b, n) {
      assert a[i - 1] == s[i - 1] && a[|a| - 1] == s[|a| - 1];
      if n < |a| { EndInFront(s, a, k, b, n); }
    }
  }

  lemma EndBehind(a: string, rest: string, i: nat)
    requires 0 < i < |a| && EndsWord(a[i - 1]) && Ending(a, i, |a|) && rest != "" && BeginsSentence(rest[0])
    ensures SentenceEnd(a + " " + rest, i, |a|, |a| + 1)
  {
    var s := a + " " + rest;
    assert forall j :: 0 <= j < |a| ==> s[j] == a[j];
    assert s[|a|] == ' ' && s[|a| + 1] == rest[0];
    assert Marks(a, i, |a|) ==> Marks(s, i, |a|);
    assert Marks(a, i, |a| - 1) ==> Marks(s, i, |a| - 1);
  }

  lemma NoneBefore(s: string, end: nat -> Option<Cut>, a: string, i: nat, k: nat)
    requires AreEnds(s, end) && a <= s && IsOneSentence(a)
    requires 0 < i < |a| && EndsWord(a[i - 1]) && Ending(a, i, |a|) && k < i
    ensures end(k) == None
  {
    if end(k).Some? { NoEarlierEnd(s, a, i, k, end(k).value.blank, end(k).value.next); }
  }

  /** With the first end at `i`, the first piece ends there. */
  lemma CutAt(end: nat -> Option<Cut>, s: string, i: nat, cut: Cut)
    requires i < cut.blank < cut.next < |s| && end(i) == Some(cut) && forall k: nat :: k < i ==> end(k) == None
    ensures Pieces(end, s, 0, 0) == [s[0..cut.blank]] + Pieces(end, s, cut.next, cut.next)
  {
    SkipTo(end, s, 0, 0, i);
  }

  lemma EndIsListed(s: string, end: nat -> Option<Cut>, i: nat, b: nat, n: nat)
    requires AreEnds(s, end) && SentenceEnd(s, i, b, n)
    ensures end(i) == Some(Cut(b, n)) && i < b < n < |s|
  {
  }

  lemma FirstEnd(s: string, end: nat -> Option<Cut>, a: string, rest: string) returns (i: nat)
    requires AreEnds(s, end) && s == a + " " + rest && Closed(a) && rest != "" && BeginsSentence(rest[0])
    ensures i < |a| && end(i) == Some(Cut(|a|, |a| + 1)) && forall k: nat :: k < i ==> end(k) == None
  {
    i :| 0 < i < |a| && EndsWord(a[i - 1]) && Ending(a, i, |a|);
    forall k: nat | k < i ensures end(k) == None { NoneBefore(s, end, a, i, k); }
    EndBehind(a, rest, i);
    EndIsListed(s, end, i, |a|, |a| + 1);
  }

  // ----- What follows the cut -----

  lemma Shifted(pre: string, rest: string, k: nat, b: nat, n: nat)
    requires 0 < k
    ensures SentenceEnd(pre + rest, |pre| + k, |pre| + b, |pre| + n) <==> SentenceEnd(rest, k, b, n)
  {
    var s := pre + rest;
    assert forall j :: 0 <= j < |rest| ==> s[|pre| + j] == rest[j];
    ShiftedMarks(pre, rest, k, b);
    if b > 0 { ShiftedMarks(pre, rest, k, b - 1); }
    if SentenceEnd(s, |pre| + k, |pre| + b, |pre| + n) {
      forall j | b <= j < n ensures IsSpace(rest[j]) { assert rest[j] == s[|pre| + j]; }
    }
    if SentenceEnd(rest, k, b, n) {
      forall j | |pre| + b <= j < |pre| + n ensures IsSpace(s[j]) { assert s[j] == rest[j - |pre|]; }
    }
  }

  lemma ShiftedMarks(pre: string, rest: string, k: nat, b: nat)
    ensures Marks(pre + rest, |pre| + k, |pre| + b) <==> Marks(rest, k, b)
  {
    var s := pre + rest;
    if Marks(s, |pre| + k, |pre| + b) {
      forall j | k <= j < b ensures rest[j] == '.' || rest[j] == '!' || rest[j] == '?' { assert rest[j] == s[|pre| + j]; }
    }
    if Marks(rest, k, b) {
      forall j | |pre| + k <= j < |pre| + b ensures s[j] == '.' || s[j] == '!' || s[j] == '?' { assert s[j] == rest[j - |pre|]; }
    }
  }

  lemma EndShifts(pre: string, rest: string, f: nat -> Option<Cut>, g: nat -> Option<Cut>, k: nat)
    requires pre != "" && IsSpace(pre[|pre| - 1]) && AreEnds(pre + rest, f) && AreEnds(rest, g)
    ensures ShiftAt(f, g, |pre|, k)
  {
    if g(k).Some? {
      var cut := g(k).value;
      assert SentenceEnd(rest, k, cut.blank, cut.next);
      Shifted(pre, rest, k, cut.blank, cut.next);
    } else if f(|pre| + k).Some? {
      var cut := f(|pre| + k).value;
      assert SentenceEnd(pre + rest, |pre| + k, cut.blank, cut.next);
      assert (pre + rest)[|pre| - 1] == pre[|pre| - 1];
      Shifted(pre, rest, k, cut.blank - |pre|, cut.next - |pre|);
    }
  }

  /** Behind whitespace a text has the ends it has alone. */
  lemma {:induction false} EndsShift(pre: string, rest: string, f: nat -> Option<Cut>, g: nat -> Option<Cut>, n: nat)
    requires pre != "" && IsSpace(pre[|pre| - 1]) && AreEnds(pre + rest, f) && AreEnds(rest, g)
    ensures Shift(f, g, |pre|, n)
  {
    if n > 0 {
      EndsShift(pre, rest, f, g, n - 1);
      EndShifts(pre, rest, f, g, n - 1);
    }
  }

  lemma OneAndMore(s: string, f: nat -> Option<Cut>, a: string, rest: string, g: nat -> Option<Cut>)
    requires AreEnds(s, f) && AreEnds(rest, g)
    requires s == a + " " + rest && Closed(a) && rest != "" && BeginsSentence(rest[0])
    ensures Pieces(f, s, 0, 0) == [a] + Pieces(g, rest, 0, 0)
  {
    var i := FirstEnd(s, f, a, rest);
    CutAt(f, s, i, Cut(|a|, |a| + 1));
    EndsShift(a + " ", rest, f, g, |rest|);
    PiecesShift(f, g, s, a + " ", rest, 0, 0);
    assert s[0..|a|] == a;
  }

  lemma NotAnEnd(s: string, end: nat -> Option<Cut>, k: nat)
    requires AreEnds(s, end) && IsOneSentence(s)
    ensures end(k) == None
  {
    if end(k).Some? {
      var cut := end(k).value;
      EndIsNoEnd(s, k, cut.blank, cut.next);
    }
  }

  lemma EndIsNoEnd(s: string, k: nat, b: nat, n: nat)
    requires IsOneSentence(s)
    ensures !SentenceEnd(s, k, b, n)
  {
  }

  lemma OnlyPiece(s: string, end: nat -> Option<Cut>)
    requires AreEnds(s, end) && IsOneSentence(s)
    ensures Pieces(end, s, 0, 0) == [s]
  {
    forall k: nat ensures end(k) == None { NotAnEnd(s, end, k); }
    SkipTo(end, s, 0, 0, |s|);
    assert s[0..|s|] == s;
  }

  // ----- The whole text -----

  lemma ProseBegins(ss: seq<string>)
    requires ss != [] && ss[0] != ""
    ensures Text.Join(ss) != "" && Text.Join(ss)[0] == ss[0][0]
  {
  }

  /** Cutting the joined sentences gives them back. */
  lemma {:induction false} CutBack(ss: seq<string>)
    requires IsProse(ss)
    ensures var s := Text.Join(ss); Pieces(EndsOf(s), s, 0, 0) == ss
  {
    var s := Text.Join(ss);
    EndsAreEnds(s);
    if |ss| == 1 {
      OnlyPiece(s, EndsOf(s));
      assert ss == [s];
    } else {
      var rest := Text.Join(ss[1..]);
      CutBack(ss[1..]);
      ProseBegins(ss[1..]);
      EndsAreEnds(rest);
      OneAndMore(s, EndsOf(s), ss[0], rest, EndsOf(rest));
      assert ss == [ss[0]] + ss[1..];
    }
  }

  /** None of the abbreviations is in the text. */
  predicate NoAbbreviations(table: seq<string>, text: string) {
    forall i :: 0 <= i < |table| ==> !Occurs(text, table[i])
  }

  lemma {:induction false} NothingHidden(table: seq<string>, text: string, n: nat)
    requires IsTable(table) && n <= |table| && NoAbbreviations(table, text)
    ensures Hide(table, text, n) == text && Used(table, text, n) == []
  {
    if n > 0 {
      NothingHidden(table, text, n - 1);
      NothingToReplace(text, table[n - 1], Tag(n - 1));
    }
  }

  lemma StripIsIdle(s: string)
    requires IsStripped(s)
    ensures Strip(s) == s
  {
    assert StripLeft(s) == s;
  }

  lemma {:induction false} ProseIsStripped(ss: seq<string>)
    requires IsProse(ss)
    ensures Stripped(ss) == ss
  {
    StripIsIdle(ss[0]);
    if |ss| > 1 {
      ProseIsStripped(ss[1..]);
      assert ss == [ss[0]] + ss[1..];
    }
  }

  /** Without abbreviations, prose that is joined into one text is split into the same sentences again. */
  lemma ProseComesBack(table: seq<string>, ss: seq<string>)
    requires IsTable(table) && IsProse(ss) && NoAbbreviations(table, Text.Join(ss))
    ensures Sentences.Sentences(table, Text.Join(ss)) == ss
  {
    NothingHidden(table, Text.Join(ss), |table|);
    CutBack(ss);
    GatheredPieces(Text.Join(ss), 0, 0);
    RestoreEachNothing(table, ss);
    ProseIsStripped(ss);
  }

  /** Two plain sentences are split in two. */
  lemma TwoSentences(table: seq<string>, a: string, b: string)
    requires IsTable(table) && NoAbbreviations(table, a + " " + b)
    requires Closed(a) && IsStripped(a) && IsOneSentence(b) && IsStripped(b) && BeginsSentence(b[0])
    ensures Sentences.Sentences(table, a + " " + b) == [a, b]
  {
    var ss := [a, b];
    assert ss[1..] == [b];
    ProseComesBack(table, ss);
  }
}
