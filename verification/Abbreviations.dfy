/**
 How the sentence splitter hides abbreviations: every abbreviation of a table is replaced by a numbered
 placeholder between two NUL characters before the text is split, and put back afterwards.
 */
module Abbreviations {
  import opened Sequences
  import opened Text

  const NUL: char := '\0'

  /** `str.replace`: every occurrence from the left, without overlap. */
  function Replace(s: string, p: string, r: string): string
    requires p != ""
    decreases |s|
  {
    if s == "" then ""
    else if p <= s then r + Replace(s[|p|..], p, r)
    else [s[0]] + Replace(s[1..], p, r)
  }

  /** `p in s`. */
  predicate Occurs(s: string, p: string) {
    p <= s || (s != "" && Occurs(s[1..], p))
  }

  /** At some place the text goes on with the pattern. */
  lemma {:induction false} OccursExactly(s: string, p: string)
    ensures Occurs(s, p) <==> exists k: nat :: k <= |s| && p <= s[k..]
  {
    assert s[0..] == s;
    if !(p <= s) && s != "" {
      OccursExactly(s[1..], p);
      if k: nat :| k <= |s[1..]| && p <= s[1..][k..] { assert s[k + 1..] == s[1..][k..]; }
      if k: nat :| k <= |s| && p <= s[k..] {
        assert k > 0;
        assert s[1..][k - 1..] == s[k..];
      }
    }
  }

  predicate NulFree(s: string) {
    NUL !in s
  }

  /** What stands between the two NUL characters of placeholder `i`. */
  function Code(i: nat): (r: string)
    requires i < 1000
    ensures |r| == 7 && NulFree(r) && '.' !in r
  {
    ['A', 'B', 'B', 'R', Digit(i / 100), Digit(i / 10 % 10), Digit(i % 10)]
  }

  function Tag(i: nat): (r: string)
    requires i < 1000
    ensures |r| == 9
  {
    [NUL] + Code(i) + [NUL]
  }

  /** The placeholder of an entry, as it is spelled. */
  lemma PlaceholderText(i: nat)
    requires i < 1000
    ensures Tag(i) == ['\0', 'A', 'B', 'B', 'R', Digit(i / 100), Digit(i / 10 % 10), Digit(i % 10), '\0']
  {
  }

  /** An abbreviation table: each entry has a dot and no NUL, and its index fits in three digits. */
  predicate IsTable(table: seq<string>) {
    |table| <= 1000 && forall i :: 0 <= i < |table| ==> NulFree(table[i]) && '.' in table[i]
  }

  // ----- Hiding and restoring, on texts -----

  /** The text after the first `n` entries of the table have been hidden. */
  function Hide(table: seq<string>, text: string, n: nat): string
    requires IsTable(table) && n <= |table|
  {
    if n == 0 then text else Replace(Hide(table, text, n - 1), table[n - 1], Tag(n - 1))
  }

  /** The entries for which a placeholder is remembered. */
  function Used(table: seq<string>, text: string, n: nat): (r: seq<nat>)
    requires IsTable(table) && n <= |table|
    ensures forall k :: 0 <= k < |r| ==> r[k] < n
    ensures Ascending(r)
  {
    if n == 0 then []
    else
      Used(table, text, n - 1) + (if Occurs(Hide(table, text, n - 1), table[n - 1]) then [n - 1] else [])
  }

  predicate Indices(table: seq<string>, used: seq<nat>) {
    forall k :: 0 <= k < |used| ==> used[k] < |table|
  }

  /** The remembered placeholders put back, in the order in which they were remembered. */
  function Restore(table: seq<string>, s: string, used: seq<nat>): string
    requires IsTable(table) && Indices(table, used)
    decreases |used|
  {
    if used == [] then s
    else Restore(table, Replace(s, Tag(used[0]), table[used[0]]), used[1..])
  }

  // ----- The same on tokens: a hidden abbreviation is one token -----

  datatype Token = Letter(c: char) | Mark(i: nat)

  predicate IsToken(t: Token) {
    match t
    case Letter(c) => c != NUL
    case Mark(i) => i < 1000
  }

  predicate Tokens(toks: seq<Token>) {
    forall k :: 0 <= k < |toks| ==> IsToken(toks[k])
  }

  function RenderOne(t: Token): string
    requires IsToken(t)
  {
    match t
    case Letter(c) => [c]
    case Mark(i) => Tag(i)
  }

  function Render(toks: seq<Token>): string
    requires Tokens(toks)
  {
    if toks == [] then "" else RenderOne(toks[0]) + Render(toks[1..])
  }

  function Letters(s: string): (r: seq<Token>)
    ensures |r| == |s|
    ensures NulFree(s) ==> Tokens(r)
  {
    if s == "" then [] else [Letter(s[0])] + Letters(s[1..])
  }

  /** The tokens begin with the letters of `w`. */
  predicate Starts(toks: seq<Token>, w: string) {
    w == "" || (toks != [] && toks[0] == Letter(w[0]) && Starts(toks[1..], w[1..]))
  }

  lemma {:induction false} StartsLength(toks: seq<Token>, w: string)
    requires Starts(toks, w)
    ensures |w| <= |toks|
  {
    if w != "" { StartsLength(toks[1..], w[1..]); }
  }

  /** Hiding one abbreviation. */
  function HideOne(toks: seq<Token>, w: string, i: nat): (r: seq<Token>)
    requires w != ""
    ensures Tokens(toks) && i < 1000 ==> Tokens(r)
    decreases |toks|
  {
    if toks == [] then []
    else if Starts(toks, w) then
      StartsLength(toks, w);
      [Mark(i)] + HideOne(toks[|w|..], w, i)
    else [toks[0]] + HideOne(toks[1..], w, i)
  }

  /** Putting one abbreviation back. */
  function ShowOne(toks: seq<Token>, w: string, i: nat): (r: seq<Token>)
    ensures Tokens(toks) && NulFree(w) ==> Tokens(r)
  {
    if toks == [] then []
    else (if toks[0] == Mark(i) then Letters(w) else [toks[0]]) + ShowOne(toks[1..], w, i)
  }

  /** The text that the tokens stand for. */
  function Meaning(table: seq<string>, toks: seq<Token>): string {
    if toks == [] then "" else MeaningOne(table, toks[0]) + Meaning(table, toks[1..])
  }

  function MeaningOne(table: seq<string>, t: Token): string {
    match t
    case Letter(c) => [c]
    case Mark(i) => if i < |table| then table[i] else ""
  }

  // ----- Texts and tokens agree while hiding -----

  lemma {:induction false} RenderConcat(a: seq<Token>, b: seq<Token>)
    requires Tokens(a) && Tokens(b)
    ensures Render(a + b) == Render(a) + Render(b)
  {
    if a == [] {
      assert a + b == b;
    } else {
      RenderConcat(a[1..], b);
      FirstOfThree(a[0], a[1..], b);
      assert a == [a[0]] + a[1..];
      Associate(RenderOne(a[0]), Render(a[1..]), Render(b));
    }
  }

  lemma {:induction false} RenderLetters(s: string)
    requires NulFree(s)
    ensures Render(Letters(s)) == s
  {
    if s != "" { RenderLetters(s[1..]); }
  }

  lemma {:induction false} StartsSplits(toks: seq<Token>, w: string)
    requires Starts(toks, w)
    ensures |w| <= |toks| && toks == Letters(w) + toks[|w|..]
  {
    if w != "" {
      StartsSplits(toks[1..], w[1..]);
      assert toks[1..][|w| - 1..] == toks[|w|..];
      assert toks == [toks[0]] + toks[1..];
      Associate([toks[0]], Letters(w[1..]), toks[|w|..]);
    }
  }

  /** A text without NUL begins the rendered text exactly when its letters begin the tokens. */
  lemma {:induction false} PrefixIsStarts(toks: seq<Token>, w: string)
    requires Tokens(toks) && NulFree(w)
    ensures w <= Render(toks) <==> Starts(toks, w)
  {
    if w != "" && toks != [] {
      PrefixIsStarts(toks[1..], w[1..]);
      var head, rest := RenderOne(toks[0]), Render(toks[1..]);
      if toks[0] == Letter(w[0]) {
        assert (head + rest)[1..] == rest;
        assert w <= head + rest <==> w[1..] <= rest;
      } else if w <= head + rest {
        assert w[0] == head[0];
      }
    }
  }

  /** A text without NUL that begins in front of a NUL lies in front of it. */
  lemma BeforeNul(y: string, s: string, w: string)
    requires NulFree(w) && w <= y + ([NUL] + s)
    ensures w <= y
  {
    var t := y + ([NUL] + s);
    assert t[|y|] == NUL;
    assert |w| <= |y|;
    assert w == t[..|w|] == y[..|w|];
  }

  /** No entry of a table begins inside a placeholder. */
  lemma NoEntryInTag(y: string, s: string, w: string)
    requires '.' !in y && NulFree(w) && '.' in w
    ensures !(w <= y + ([NUL] + s))
  {
    if w <= y + ([NUL] + s) { BeforeNul(y, s, w); }
  }

  lemma {:induction false} TailOfTagIsKept(y: string, s: string, w: string, r: string)
    requires '.' !in y && NulFree(w) && '.' in w
    ensures Replace(y + ([NUL] + s), w, r) == y + ([NUL] + Replace(s, w, r))
  {
    NoEntryInTag(y, s, w);
    var t := y + ([NUL] + s);
    if y == "" {
      assert t == [NUL] + s && t[1..] == s;
    } else {
      TailOfTagIsKept(y[1..], s, w, r);
      FirstOfThree(y[0], y[1..], [NUL] + s);
      assert y == [y[0]] + y[1..];
      Associate([y[0]], y[1..], [NUL] + Replace(s, w, r));
    }
  }

  lemma TagParts(i: nat, s: string)
    requires i < 1000
    ensures Tag(i) + s == [NUL] + (Code(i) + ([NUL] + s))
  {
  }

  lemma TagIsKept(i: nat, s: string, w: string, r: string)
    requires i < 1000 && NulFree(w) && '.' in w
    ensures Replace(Tag(i) + s, w, r) == Tag(i) + Replace(s, w, r)
  {
    var tail := Code(i) + ([NUL] + s);
    TagParts(i, s);
    TagParts(i, Replace(s, w, r));
    NoEntryInTag("", tail, w);
    assert "" + ([NUL] + tail) == [NUL] + tail && ([NUL] + tail)[1..] == tail;
    TailOfTagIsKept(Code(i), s, w, r);
  }

  lemma {:induction false} HideOneIsReplace(toks: seq<Token>, w: string, i: nat)
    requires Tokens(toks) && NulFree(w) && '.' in w && i < 1000
    ensures Replace(Render(toks), w, Tag(i)) == Render(HideOne(toks, w, i))
    decreases |toks|
  {
    if toks != [] {
      PrefixIsStarts(toks, w);
      if Starts(toks, w) {
        StartsSplits(toks, w);
        HideOneIsReplace(toks[|w|..], w, i);
        RenderConcat(Letters(w), toks[|w|..]);
        RenderLetters(w);
        assert Render(toks)[|w|..] == Render(toks[|w|..]);
      } else {
        HideOneIsReplace(toks[1..], w, i);
        if toks[0].Mark? { TagIsKept(toks[0].i, Render(toks[1..]), w, Tag(i)); }
      }
    }
  }

  lemma {:induction false} MeaningConcat(table: seq<string>, a: seq<Token>, b: seq<Token>)
    ensures Meaning(table, a + b) == Meaning(table, a) + Meaning(table, b)
  {
    if a == [] {
      assert a + b == b;
    } else {
      MeaningConcat(table, a[1..], b);
      assert (a + b)[1..] == a[1..] + b && (a + b)[0] == a[0];
      Associate(MeaningOne(table, a[0]), Meaning(table, a[1..]), Meaning(table, b));
    }
  }

  lemma {:induction false} MeaningOfLetters(table: seq<string>, s: string)
    ensures Meaning(table, Letters(s)) == s
  {
    if s != "" { MeaningOfLetters(table, s[1..]); }
  }

  lemma {:induction false} HideOneKeepsMeaning(table: seq<string>, toks: seq<Token>, i: nat)
    requires i < |table| && table[i] != ""
    ensures Meaning(table, HideOne(toks, table[i], i)) == Meaning(table, toks)
    decreases |toks|
  {
    if toks != [] {
      var w := table[i];
      if Starts(toks, w) {
        StartsSplits(toks, w);
        HideOneKeepsMeaning(table, toks[|w|..], i);
        MeaningConcat(table, Letters(w), toks[|w|..]);
        MeaningOfLetters(table, w);
      } else {
        HideOneKeepsMeaning(table, toks[1..], i);
      }
    }
  }

  /** Every placeholder among the tokens is one of these. */
  predicate MarksIn(toks: seq<Token>, used: seq<nat>) {
    forall k :: 0 <= k < |toks| && toks[k].Mark? ==> toks[k].i in used
  }

  lemma {:induction false} HideOneMarks(toks: seq<Token>, w: string, i: nat, used: seq<nat>)
    requires MarksIn(toks, used) && w != "" && Tokens(toks) && NulFree(w)
    ensures MarksIn(HideOne(toks, w, i), if Occurs(Render(toks), w) then used + [i] else used)
    decreases |toks|
  {
    if toks != [] {
      PrefixIsStarts(toks, w);
      if Starts(toks, w) {
        StartsSplits(toks, w);
        HideOneMarksAny(toks[|w|..], w, i, used);
      } else {
        HideOneMarks(toks[1..], w, i, used);
        if Occurs(Render(toks[1..]), w) { OccursLater(RenderOne(toks[0]), Render(toks[1..]), w); }
      }
    }
  }

  lemma {:induction false} HideOneMarksAny(toks: seq<Token>, w: string, i: nat, used: seq<nat>)
    requires MarksIn(toks, used) && w != ""
    ensures MarksIn(HideOne(toks, w, i), used + [i])
    decreases |toks|
  {
    if toks != [] {
      if Starts(toks, w) {
        StartsSplits(toks, w);
        HideOneMarksAny(toks[|w|..], w, i, used);
      } else {
        HideOneMarksAny(toks[1..], w, i, used);
      }
    }
  }

  lemma {:induction false} OccursLater(x: string, s: string, p: string)
    requires Occurs(s, p)
    ensures Occurs(x + s, p)
  {
    if x == "" {
      assert x + s == s;
    } else {
      OccursLater(x[1..], s, p);
      assert (x + s)[1..] == x[1..] + s;
    }
  }

  /** The tokens of the text after the first `n` entries have been hidden. */
  function Hidden(table: seq<string>, text: string, n: nat): (r: seq<Token>)
    requires IsTable(table) && n <= |table|
    ensures NulFree(text) ==> Tokens(r)
  {
    if n == 0 then Letters(text) else HideOne(Hidden(table, text, n - 1), table[n - 1], n - 1)
  }

  /** For a text without NUL, the hidden text is the rendering of tokens that still mean the text. */
  lemma {:induction false} HiddenIsHide(table: seq<string>, text: string, n: nat)
    requires IsTable(table) && n <= |table| && NulFree(text)
    ensures Render(Hidden(table, text, n)) == Hide(table, text, n)
    ensures Meaning(table, Hidden(table, text, n)) == text
    ensures MarksIn(Hidden(table, text, n), Used(table, text, n))
  {
    if n == 0 {
      RenderLetters(text);
      MeaningOfLetters(table, text);
      LettersHaveNoMark(text);
    } else {
      var toks, w := Hidden(table, text, n - 1), table[n - 1];
      HiddenIsHide(table, text, n - 1);
      HideOneIsReplace(toks, w, n - 1);
      HideOneKeepsMeaning(table, toks, n - 1);
      HideOneMarks(toks, w, n - 1, Used(table, text, n - 1));
    }
  }

  lemma {:induction false} LettersHaveNoMark(s: string)
    ensures MarksIn(Letters(s), [])
  {
    if s != "" { LettersHaveNoMark(s[1..]); }
  }
}
