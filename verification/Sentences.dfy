/** The sentence splitter: abbreviations hidden, the text cut behind each sentence, abbreviations restored. */
module Sentences {
  import opened Wrappers
  import opened Sequences
  import opened Text
  import opened Abbreviations
  import opened Restoring

  // ----- The end of a sentence -----

  predicate Upper(c: char) {
    'A' <= c <= 'Z'
  }

  /** What may stand in front of the punctuation. */
  predicate Before(c: char) {
    Upper(c) || 'a' <= c <= 'z' || '0' <= c <= '9' || c in ")]\"'`"
  }

  predicate Punctuation(c: char) {
    c in ".!?"
  }

  predicate Closing(c: char) {
    c in "\"')]"
  }

  /** What the next sentence may begin with. */
  predicate After(c: char) {
    Upper(c) || c in "[(\"'`*_"
  }

  /** A sentence ends before `blank`; the next begins at `next`. */
  datatype Cut = Cut(blank: nat, next: nat)

  /** The match of the sentence-end pattern whose punctuation begins at `i`. */
  function EndAt(s: string, i: nat): (r: Option<Cut>)
    requires i < |s|
    ensures r.Some? ==> i < r.value.blank < r.value.next < |s| && Blank(s[r.value.blank..r.value.next])
  {
    var stop := RunEnd(s, i, Punctuation);
    var blank := if stop < |s| && Closing(s[stop]) then stop + 1 else stop;
    var next := RunEnd(s, blank, IsSpace);
    RunIsMaximal(s, blank, IsSpace);
    if 0 < i && Before(s[i - 1]) && i < stop && blank < next < |s| && After(s[next]) then Some(Cut(blank, next))
    else None
  }

  predicate EndsWord(c: char) {
    'A' <= c <= 'Z' || 'a' <= c <= 'z' || '0' <= c <= '9' || c == ')' || c == ']' || c == '\"' || c == '\'' || c == '`'
  }

  predicate BeginsSentence(c: char) {
    || 'A' <= c <= 'Z'
    || c == '[' || c == '(' || c == '\"' || c == '\'' || c == '`' || c == '*' || c == '_'
  }

  /** One or more of `.`, `!` and `?` from `i` to `stop`. */
  predicate Marks(s: string, i: nat, stop: nat) {
    i < stop <= |s| && forall k :: i <= k < stop ==> s[k] == '.' || s[k] == '!' || s[k] == '?'
  }

  /** Marks from `i`, and at most one closing quote, parenthesis or bracket, up to `b`. */
  predicate Ending(s: string, i: nat, b: nat) {
    || Marks(s, i, b)
    || (0 < b <= |s| && Marks(s, i, b - 1) && (s[b - 1] == '\"' || s[b - 1] == '\'' || s[b - 1] == ')' || s[b - 1] == ']'))
  }

  /**
   The sentence-end pattern as a relation: behind a character that can end a word stands the ending
   from `i` to `b`, whitespace from there to `n`, and at `n` a character that can begin a sentence.
   */
  predicate SentenceEnd(s: string, i: nat, b: nat, n: nat) {
    && 0 < i < b < n < |s|
    && EndsWord(s[i - 1]) && Ending(s, i, b) && (forall k :: b <= k < n ==> IsSpace(s[k])) && BeginsSentence(s[n])
  }

  lemma EndIsSentenceEnd(s: string, i: nat, cut: Cut)
    requires i < |s| && EndAt(s, i) == Some(cut)
    ensures SentenceEnd(s, i, cut.blank, cut.next)
  {
    RunIsMaximal(s, i, Punctuation);
    RunIsMaximal(s, cut.blank, IsSpace);
  }

  lemma SentenceEndIsEnd(s: string, i: nat, b: nat, n: nat)
    requires SentenceEnd(s, i, b, n)
    ensures EndAt(s, i) == Some(Cut(b, n))
  {
    var stop := if Marks(s, i, b) then b else b - 1;
    assert IsSpace(s[b]);
    RunStops(s, i, stop, Punctuation);
    RunStops(s, b, n, IsSpace);
  }

  /** The scanner's match is exactly the pattern, and there is at most one for each beginning. */
  lemma EndAtIsExact(s: string, i: nat, b: nat, n: nat)
    requires i < |s|
    ensures EndAt(s, i) == Some(Cut(b, n)) <==> SentenceEnd(s, i, b, n)
  {
    if EndAt(s, i) == Some(Cut(b, n)) { EndIsSentenceEnd(s, i, Cut(b, n)); }
    if SentenceEnd(s, i, b, n) { SentenceEndIsEnd(s, i, b, n); }
  }

  /** `re.split` with its two groups: text, punctuation, whitespace, text, and so on; `i` is being examined. */
  function Parts(s: string, start: nat, i: nat): (r: seq<string>)
    requires start <= i <= |s|
    ensures |r| % 3 == 1
    decreases |s| - i
  {
    if i == |s| then [s[start..]]
    else match EndAt(s, i)
      case None => Parts(s, start, i + 1)
      case Some(cut) => [s[start..i], s[i..cut.blank], s[cut.blank..cut.next]] + Parts(s, cut.next, cut.next)
  }

  /** The sentences of the parts: each text with its punctuation, without the whitespace. */
  function Gather(parts: seq<string>): seq<string>
    requires |parts| % 3 == 1
  {
    if |parts| < 3 then [parts[0]] else [parts[0] + parts[1]] + Gather(parts[3..])
  }

  function ReplaceEach(ss: seq<string>, p: string, r: string): seq<string>
    requires p != ""
  {
    if ss == [] then [] else [Replace(ss[0], p, r)] + ReplaceEach(ss[1..], p, r)
  }

  function RestoreEach(table: seq<string>, ss: seq<string>, used: seq<nat>): seq<string>
    requires IsTable(table) && Indices(table, used)
  {
    if ss == [] then [] else [Restore(table, ss[0], used)] + RestoreEach(table, ss[1..], used)
  }

  /** The sentences of the text, stripped, without empty ones. */
  function Sentences(table: seq<string>, text: string): seq<string>
    requires IsTable(table)
  {
    var used := Used(table, text, |table|);
    Stripped(RestoreEach(table, Gather(Parts(Hide(table, text, |table|), 0, 0)), used))
  }

  // ----- The method -----

  lemma {:induction false} NothingToReplace(s: string, p: string, r: string)
    requires p != "" && !Occurs(s, p)
    ensures Replace(s, p, r) == s
  {
    if s != "" { NothingToReplace(s[1..], p, r); }
  }

  lemma {:induction false} RestoreEachStep(table: seq<string>, ss: seq<string>, used: seq<nat>)
    requires IsTable(table) && Indices(table, used) && used != []
    ensures RestoreEach(table, ss, used)
         == RestoreEach(table, ReplaceEach(ss, Tag(used[0]), table[used[0]]), used[1..])
  {
    if ss != [] { RestoreEachStep(table, ss[1..], used); }
  }

  lemma {:induction false} RestoreEachNothing(table: seq<string>, ss: seq<string>)
    requires IsTable(table)
    ensures RestoreEach(table, ss, []) == ss
  {
    if ss != [] { RestoreEachNothing(table, ss[1..]); }
  }

  /** One entry hidden, and remembered when it occurs. */
  lemma HideNext(table: seq<string>, text: string, i: nat, hidden: string, used: seq<nat>)
    requires IsTable(table) && i < |table| && hidden == Hide(table, text, i) && used == Used(table, text, i)
    ensures Occurs(hidden, table[i]) ==>
              Replace(hidden, table[i], Tag(i)) == Hide(table, text, i + 1) && used + [i] == Used(table, text, i + 1)
    ensures !Occurs(hidden, table[i]) ==> hidden == Hide(table, text, i + 1) && used == Used(table, text, i + 1)
  {
    if !Occurs(hidden, table[i]) {
      NothingToReplace(hidden, table[i], Tag(i));
      assert used + [] == used;
    }
  }

  method HideAbbreviations(table: seq<string>, text: string) returns (hidden: string, used: seq<nat>)
    requires IsTable(table)
    ensures hidden == Hide(table, text, |table|) && used == Used(table, text, |table|)
  {
    hidden, used := text, [];
    for i := 0 to |table|
      invariant hidden == Hide(table, text, i) && used == Used(table, text, i)
    {
      HideNext(table, text, i, hidden, used);
      if Occurs(hidden, table[i]) {
        used := used + [i];
        hidden := Replace(hidden, table[i], Tag(i));
      }
    }
  }

  method GatherSentences(parts: seq<string>) returns (sentences: seq<string>)
    requires |parts| % 3 == 1
    ensures sentences == Gather(parts)
  {
    sentences := [];
    var i := 0;
    while i + 2 < |parts|
      invariant i < |parts| && i % 3 == 0 && sentences + Gather(parts[i..]) == Gather(parts)
    {
      sentences := sentences + [parts[i] + parts[i + 1]];
      assert parts[i..][3..] == parts[i + 3..];
      i := i + 3;
    }
    sentences := sentences + [parts[i]];
  }

  method SplitSentences(table: seq<string>, text: string) returns (r: seq<string>)
    requires IsTable(table)
    ensures r == Sentences(table, text)
  {
    var hidden, used := HideAbbreviations(table, text);
    var sentences := GatherSentences(Parts(hidden, 0, 0));
    ghost var all := RestoreEach(table, sentences, used);
    assert used[0..] == used;
    for k := 0 to |used|
      invariant RestoreEach(table, sentences, used[k..]) == all
    {
      RestoreEachStep(table, sentences, used[k..]);
      assert used[k..][1..] == used[k + 1..];
      sentences := ReplaceEach(sentences, Tag(used[k]), table[used[k]]);
    }
    RestoreEachNothing(table, sentences);
    r := Stripped(sentences);
  }

  // ----- The words are kept -----

  lemma {:induction false} PassBlank(ws: string, y: string, p: string, r: string)
    requires Blank(ws) && p != "" && !IsSpace(p[0])
    ensures Replace(ws + y, p, r) == ws + Replace(y, p, r)
  {
    if ws == "" {
      assert ws + y == y;
    } else {
      PassBlank(ws[1..], y, p, r);
      assert (ws + y)[1..] == ws[1..] + y && (ws + y)[0] == ws[0];
    }
  }

  predicate NoSpace(p: string) {
    forall k :: 0 <= k < |p| ==> !IsSpace(p[k])
  }

  lemma PrefixAcross(x: string, ws: string, y: string, p: string)
    requires ws != "" && Blank(ws) && NoSpace(p)
    ensures p <= x + (ws + y) <==> p <= x
  {
    var t := x + (ws + y);
    assert t[|x|] == ws[0] && IsSpace(ws[0]) && t[..|x|] == x;
  }

  /** A pattern without whitespace is not found across whitespace. */
  lemma {:induction false} ReplaceAcross(x: string, ws: string, y: string, p: string, r: string)
    requires ws != "" && Blank(ws) && p != "" && NoSpace(p)
    ensures Replace(x + (ws + y), p, r) == Replace(x, p, r) + (ws + Replace(y, p, r))
    decreases |x|
  {
    var t, tail := x + (ws + y), ws + Replace(y, p, r);
    PrefixAcross(x, ws, y, p);
    if x == "" {
      assert t == ws + y && Replace(x, p, r) + tail == tail;
      PassBlank(ws, y, p, r);
    } else if p <= x {
      ReplaceAcross(x[|p|..], ws, y, p, r);
      assert t[|p|..] == x[|p|..] + (ws + y);
      Associate(r, Replace(x[|p|..], p, r), tail);
    } else {
      ReplaceAcross(x[1..], ws, y, p, r);
      assert t[1..] == x[1..] + (ws + y) && t[0] == x[0];
      Associate([x[0]], Replace(x[1..], p, r), tail);
    }
  }

  lemma TagHasNoSpace(i: nat)
    requires i < 1000
    ensures NoSpace(Tag(i))
  {
    DigitIsNoSpace(i / 100);
    DigitIsNoSpace(i / 10 % 10);
    DigitIsNoSpace(i % 10);
  }

  lemma DigitIsNoSpace(n: nat)
    requires n < 10
    ensures !IsSpace(Digit(n))
  {
  }

  lemma {:induction false} RestoreAcross(table: seq<string>, x: string, ws: string, y: string, used: seq<nat>)
    requires IsTable(table) && Indices(table, used) && ws != "" && Blank(ws)
    ensures Restore(table, x + (ws + y), used) == Restore(table, x, used) + (ws + Restore(table, y, used))
    decreases used
  {
    if used != [] {
      var p, r := Tag(used[0]), table[used[0]];
      TagHasNoSpace(used[0]);
      ReplaceAcross(x, ws, y, p, r);
      RestoreAcross(table, Replace(x, p, r), ws, Replace(y, p, r), used[1..]);
    }
  }

  lemma WordsAcross(x: string, ws: string, y: string)
    requires ws != "" && Blank(ws)
    ensures Words(x + (ws + y)) == Words(x) + Words(y)
  {
    BlankHasNoWords(ws);
    WordsOfConcat(ws, y);
    WordsOfConcat(x, ws + y);
  }

  lemma OneMoreSentence(table: seq<string>, x: string, ws: string, y: string, ss: seq<string>, used: seq<nat>)
    requires IsTable(table) && Indices(table, used) && ws != "" && Blank(ws)
    requires WordsOf(RestoreEach(table, ss, used)) == Words(Restore(table, y, used))
    ensures WordsOf(RestoreEach(table, [x] + ss, used)) == Words(Restore(table, x + (ws + y), used))
  {
    RestoreAcross(table, x, ws, y, used);
    WordsAcross(Restore(table, x, used), ws, Restore(table, y, used));
    assert ([x] + ss)[1..] == ss;
    var each := [Restore(table, x, used)] + RestoreEach(table, ss, used);
    assert each[1..] == RestoreEach(table, ss, used);
  }

  lemma SentenceAtCut(s: string, start: nat, i: nat, cut: Cut)
    requires start <= i < |s| && EndAt(s, i) == Some(cut)
    ensures Gather(Parts(s, start, i)) == [s[start..cut.blank]] + Gather(Parts(s, cut.next, cut.next))
  {
    assert s[start..i] + s[i..cut.blank] == s[start..cut.blank];
    assert Parts(s, start, i)[3..] == Parts(s, cut.next, cut.next);
  }

  lemma PiecesAtCut(s: string, start: nat, a: nat, b: nat)
    requires start <= a <= b <= |s|
    ensures s[start..] == s[start..a] + (s[a..b] + s[b..])
  {
  }

  /** Cutting the hidden text and restoring each sentence has the words of the whole text restored. */
  lemma {:induction false} CuttingKeepsWords(table: seq<string>, s: string, start: nat, i: nat, used: seq<nat>)
    requires IsTable(table) && Indices(table, used) && start <= i <= |s|
    ensures WordsOf(RestoreEach(table, Gather(Parts(s, start, i)), used)) == Words(Restore(table, s[start..], used))
    decreases |s| - i
  {
    if i == |s| {
      assert RestoreEach(table, [s[start..]], used) == [Restore(table, s[start..], used)];
      WordsOfOne(Restore(table, s[start..], used));
    } else if EndAt(s, i).None? {
      CuttingKeepsWords(table, s, start, i + 1, used);
    } else {
      var cut := EndAt(s, i).value;
      SentenceAtCut(s, start, i, cut);
      PiecesAtCut(s, start, cut.blank, cut.next);
      CuttingKeepsWords(table, s, cut.next, cut.next, used);
      OneMoreSentence(table, s[start..cut.blank], s[cut.blank..cut.next], s[cut.next..],
                      Gather(Parts(s, cut.next, cut.next)), used);
    }
  }

  lemma WordsOfOne(s: string)
    ensures WordsOf([s]) == Words(s)
  {
    assert WordsOf([s][1..]) == [];
  }

  /** The words of the sentences, in order, are the words of the text exactly when the text is unambiguous. */
  lemma SentencesKeepWords(table: seq<string>, text: string)
    requires IsTable(table) && NulFree(text)
    ensures WordsOf(Sentences(table, text)) == Words(text) <==> Unambiguous(table, text)
    ensures Sentences(table, text) == [] ==> Words(text) == []
    ensures !Unambiguous(table, text) ==> Holds(WordsOf(Sentences(table, text)), NUL)
  {
    var hidden, used := Hide(table, text, |table|), Used(table, text, |table|);
    assert hidden[0..] == hidden;
    CuttingKeepsWords(table, hidden, 0, 0, used);
    StrippedKeepsWords(RestoreEach(table, Gather(Parts(hidden, 0, 0)), used));
    RoundTrip(table, text);
    WordsHoldTheLetters(text, NUL);
    WordsHoldTheLetters(HideAndRestore(table, text), NUL);
  }

  /** No sentence is empty or has whitespace at either end. */
  lemma SentencesAreStripped(table: seq<string>, text: string, k: nat)
    requires IsTable(table) && k < |Sentences(table, text)|
    ensures IsStripped(Sentences(table, text)[k])
  {
    var hidden, used := Hide(table, text, |table|), Used(table, text, |table|);
    StrippedAreStripped(RestoreEach(table, Gather(Parts(hidden, 0, 0)), used), k);
  }

  // ----- One sentence per line -----

  /** The text holds no sentence end with another sentence behind it. */
  ghost predicate IsOneSentence(s: string) {
    forall i: nat, b: nat, n: nat :: !SentenceEnd(s, i, b, n)
  }

  lemma NoEndsIsOneSentence(s: string)
    ensures IsOneSentence(s) <==> NoEnds(s, 0, |s|)
  {
    if IsOneSentence(s) {
      forall k: nat | k < |s| ensures EndAt(s, k).None? {
        if EndAt(s, k).Some? { EndIsSentenceEnd(s, k, EndAt(s, k).value); }
      }
    } else {
      var i: nat, b: nat, n: nat :| SentenceEnd(s, i, b, n);
      SentenceEndIsEnd(s, i, b, n);
    }
  }

  lemma SentenceEndInside(s: string, t: string, a: nat, i: nat, blank: nat, n: nat)
    requires a + |t| <= |s| && t == s[a..a + |t|] && SentenceEnd(t, i, blank, n)
    ensures SentenceEnd(s, a + i, a + blank, a + n)
  {
    assert forall k :: a <= k < a + |t| ==> s[k] == t[k - a];
    assert Marks(t, i, blank) ==> Marks(s, a + i, a + blank);
    assert Marks(t, i, blank - 1) ==> Marks(s, a + i, a + blank - 1);
  }

  lemma EndInSlice(s: string, t: string, a: nat, k: nat, cut: Cut)
    requires a + |t| <= |s| && t == s[a..a + |t|] && k < |t| && EndAt(t, k) == Some(cut)
    ensures SentenceEnd(s, a + k, a + cut.blank, a + cut.next)
  {
    EndIsSentenceEnd(t, k, cut);
    SentenceEndInside(s, t, a, k, cut.blank, cut.next);
  }

  lemma EndOfSlice(s: string, t: string, a: nat, k: nat, cut: Cut)
    requires a + |t| <= |s| && t == s[a..a + |t|] && k < |t| && EndAt(t, k) == Some(cut)
    ensures EndAt(s, a + k) == Some(Cut(a + cut.blank, a + cut.next))
  {
    EndInSlice(s, t, a, k, cut);
    SentenceEndIsEnd(s, a + k, a + cut.blank, a + cut.next);
  }

  /** A sentence end inside a slice is one of the whole text. */
  lemma EndInside(s: string, a: nat, b: nat, k: nat)
    requires a <= b <= |s| && k < b - a && EndAt(s[a..b], k).Some?
    ensures var cut := EndAt(s[a..b], k).value;
            EndAt(s, a + k) == Some(Cut(a + cut.blank, a + cut.next))
  {
    EndOfSlice(s, s[a..b], a, k, EndAt(s[a..b], k).value);
  }

  /** It needs whitespace in the slice. */
  lemma EndNeedsSpace(s: string, a: nat, b: nat, k: nat) returns (j: nat)
    requires a <= b <= |s| && k < b - a && EndAt(s[a..b], k).Some?
    ensures EndAt(s, a + k).Some? && a + k <= j < b && IsSpace(s[j])
  {
    EndInside(s, a, b, k);
    var cut := EndAt(s[a..b], k).value;
    j := a + cut.blank;
    assert s[j] == s[j..a + cut.next][0];
  }

  /** From the punctuation to the cut there is no whitespace. */
  lemma NoSpaceBeforeCut(s: string, i: nat, cut: Cut, k: nat)
    requires i < |s| && EndAt(s, i) == Some(cut) && i <= k < cut.blank
    ensures !IsSpace(s[k])
  {
    RunIsMaximal(s, i, Punctuation);
  }

  predicate NoEnds(s: string, a: nat, b: nat)
    requires a <= b <= |s|
  {
    forall k :: a <= k < b ==> EndAt(s, k).None?
  }

  lemma CutPieceIsOneSentence(s: string, start: nat, i: nat, cut: Cut)
    requires start <= i < |s| && EndAt(s, i) == Some(cut) && NoEnds(s, start, i)
    ensures IsOneSentence(s[start..cut.blank])
  {
    forall k | 0 <= k < cut.blank - start ensures EndAt(s[start..cut.blank], k).None? {
      if EndAt(s[start..cut.blank], k).Some? {
        var j := EndNeedsSpace(s, start, cut.blank, k);
        if start + k >= i { NoSpaceBeforeCut(s, i, cut, j); }
      }
    }
    NoEndsIsOneSentence(s[start..cut.blank]);
  }

  lemma LastPieceIsOneSentence(s: string, start: nat)
    requires start <= |s| && NoEnds(s, start, |s|)
    ensures IsOneSentence(s[start..])
  {
    assert s[start..] == s[start..|s|];
    forall k | 0 <= k < |s| - start ensures EndAt(s[start..], k).None? {
      if EndAt(s[start..], k).Some? { EndInside(s, start, |s|, k); }
    }
    NoEndsIsOneSentence(s[start..]);
  }

  ghost predicate AreSentences(pieces: seq<string>) {
    pieces == [] || (IsOneSentence(pieces[0]) && AreSentences(pieces[1..]))
  }

  lemma SentenceInFront(piece: string, rest: seq<string>)
    requires IsOneSentence(piece) && AreSentences(rest)
    ensures AreSentences([piece] + rest)
  {
    assert ([piece] + rest)[1..] == rest;
  }

  /** Each piece between two cuts is one sentence: no sentence end is overlooked. */
  lemma {:induction false} PiecesAreSentences(s: string, start: nat, i: nat)
    requires start <= i <= |s| && NoEnds(s, start, i)
    ensures AreSentences(Gather(Parts(s, start, i)))
    decreases |s| - i
  {
    if i == |s| {
      LastPieceIsOneSentence(s, start);
      SentenceInFront(s[start..], []);
    } else if EndAt(s, i).None? {
      PiecesAreSentences(s, start, i + 1);
    } else {
      var cut := EndAt(s, i).value;
      SentenceAtCut(s, start, i, cut);
      CutPieceIsOneSentence(s, start, i, cut);
      PiecesAreSentences(s, cut.next, cut.next);
      SentenceInFront(s[start..cut.blank], Gather(Parts(s, cut.next, cut.next)));
    }
  }
}
