/** The line patterns of the Markdown script written out, and the classification of a line proved against them. */
module MarkdownPatterns {
  import opened Wrappers
  import opened Sequences
  import opened Text
  import opened MarkdownLines

  predicate Spaces(line: string, a: nat, b: nat) {
    a <= b <= |line| && forall k :: a <= k < b ==> IsSpace(line[k])
  }

  /** From `a` to `b` nothing but the character `c`. */
  predicate Repeats(line: string, a: nat, b: nat, c: char) {
    a <= b <= |line| && forall k :: a <= k < b ==> line[k] == c
  }

  // ----- The patterns -----

  /** At most three characters of whitespace up to `a`. */
  predicate Margin(line: string, a: nat) {
    a <= 3 && Spaces(line, 0, a)
  }

  predicate OpensAt(line: string, a: nat, c: char) {
    Margin(line, a) && a < |line| && line[a] == c
  }

  /** A margin and then `c`: tables, HTML blocks, and how other patterns begin. */
  ghost predicate OpensWith(line: string, c: char) {
    exists a: nat :: OpensAt(line, a, c)
  }

  predicate FenceAt(line: string, a: nat, c: char) {
    Margin(line, a) && Repeats(line, a, a + 3, c)
  }

  /** A fence: a margin, and three backticks or tildes. */
  ghost predicate IsFence(line: string, c: char) {
    (c == '`' || c == '~') && exists a: nat :: FenceAt(line, a, c)
  }

  predicate HeadingAt(line: string, a: nat, e: nat) {
    Margin(line, a) && a + 1 <= e <= a + 6 && e < |line| && Repeats(line, a, e, '#') && IsSpace(line[e])
  }

  /** A heading: a margin, one to six number signs, and whitespace. */
  ghost predicate IsHeading(line: string) {
    exists a: nat, e: nat :: HeadingAt(line, a, e)
  }

  predicate RuleAt(line: string, a: nat, e: nat, mark: char) {
    Margin(line, a) && a + 3 <= e && Repeats(line, a, e, mark) && Spaces(line, e, |line|)
  }

  /** A rule: a margin, three or more of the mark, and only whitespace behind them. */
  ghost predicate IsRule(line: string, mark: char) {
    exists a: nat, e: nat :: RuleAt(line, a, e, mark)
  }

  predicate ReferenceAt(line: string, a: nat, e: nat) {
    && OpensAt(line, a, '[') && a + 1 < e && e + 2 < |line| && (forall k :: a < k < e ==> line[k] != ']')
    && line[e] == ']' && line[e + 1] == ':' && IsSpace(line[e + 2])
  }

  /** A link definition: a margin, brackets around something without a closing bracket, a colon, and whitespace. */
  ghost predicate IsReference(line: string) {
    exists a: nat, e: nat :: ReferenceAt(line, a, e)
  }

  /** What is passed through: headings, tables, rules, HTML blocks and link definitions. */
  ghost predicate IsPassedThrough(line: string) {
    || IsHeading(line) || OpensWith(line, '|')
    || IsRule(line, '-') || IsRule(line, '*') || IsRule(line, '_')
    || OpensWith(line, '<') || IsReference(line)
  }

  predicate QuoteAt(line: string, a: nat, w: nat) {
    OpensAt(line, a, '>') && w == if a + 1 < |line| && IsSpace(line[a + 1]) then a + 2 else a + 1
  }

  /** A quote prefix of length `w`: a margin, `>`, and one character of whitespace if there is one. */
  ghost predicate IsQuotePrefix(line: string, w: nat) {
    exists a: nat :: QuoteAt(line, a, w)
  }

  /** The sign of a list item from `l` to `p`: a bullet, or digits and a dot or parenthesis. */
  predicate IsSign(digit: char -> bool, line: string, l: nat, p: nat) {
    && l < p <= |line|
    && if p == l + 1 then line[l] == '-' || line[l] == '*' || line[l] == '+'
       else (line[p - 1] == '.' || line[p - 1] == ')') && forall k :: l <= k < p - 1 ==> digit(line[k])
  }

  predicate ItemMarkAt(digit: char -> bool, line: string, l: nat, p: nat, e: nat) {
    p < e && Spaces(line, 0, l) && IsSign(digit, line, l, p) && Spaces(line, p, e) && (e < |line| ==> !IsSpace(line[e]))
  }

  /** A list item: whitespace up to `l`, a sign, and all the whitespace behind it up to `e`. */
  ghost predicate IsItem(digit: char -> bool, line: string, l: nat, e: nat) {
    exists p: nat :: ItemMarkAt(digit, line, l, p, e)
  }

  /** No digit is whitespace or part of a sign. */
  ghost predicate AreDigits(digit: char -> bool) {
    forall c :: digit(c) ==> !IsSpace(c) && c !in "-*+.)"
  }

  // ----- The classification meets them -----

  lemma LeadIs(line: string, a: nat)
    requires a < |line| && Spaces(line, 0, a) && !IsSpace(line[a])
    ensures Lead(line) == a
  {
    RunStops(line, 0, a, IsSpace);
  }

  lemma LeadIsSpace(line: string)
    ensures Spaces(line, 0, Lead(line)) && (Lead(line) < |line| ==> !IsSpace(line[Lead(line)]))
  {
    RunIsMaximal(line, 0, IsSpace);
  }

  lemma OpeningIsExact(line: string, c: char)
    requires !IsSpace(c)
    ensures Opening(line) == Some(c) <==> OpensWith(line, c)
  {
    LeadIsSpace(line);
    if Opening(line) == Some(c) { assert OpensAt(line, Lead(line), c); }
    if a: nat :| OpensAt(line, a, c) { LeadIs(line, a); }
  }

  lemma ThreeAt(line: string, a: nat, c: char)
    requires a <= |line|
    ensures Three(c) <= line[a..] <==> a + 3 <= |line| && Repeats(line, a, a + 3, c)
  {
    var t := line[a..];
    if a + 3 <= |line| {
      assert t[..3] == [line[a], line[a + 1], line[a + 2]];
      if Repeats(line, a, a + 3, c) { assert t[..3] == Three(c); }
    }
  }

  lemma FenceIsExact(line: string, c: char)
    ensures Fence(line) == Some(c) <==> IsFence(line, c)
  {
    LeadIsSpace(line);
    if c == '`' || c == '~' {
      OpeningIsExact(line, c);
      ThreeAt(line, Lead(line), c);
      if Fence(line) == Some(c) { assert FenceAt(line, Lead(line), c); }
      if a: nat :| FenceAt(line, a, c) { LeadIs(line, a); }
    }
  }

  lemma MarkRun(line: string, l: nat, c: char)
    requires l <= |line|
    ensures var e := RunEnd(line, l, x => x == c); Repeats(line, l, e, c) && (e < |line| ==> line[e] != c)
  {
    RunIsMaximal(line, l, x => x == c);
  }

  lemma MarkRunIs(line: string, l: nat, e: nat, c: char)
    requires Repeats(line, l, e, c) && (e < |line| ==> line[e] != c)
    ensures RunEnd(line, l, x => x == c) == e
  {
    RunStops(line, l, e, x => x == c);
  }

  lemma HeadingIsExact(line: string)
    ensures Heading(line) <==> IsHeading(line)
  {
    LeadIsSpace(line);
    MarkRun(line, Lead(line), '#');
    if Heading(line) { assert HeadingAt(line, Lead(line), RunEnd(line, Lead(line), x => x == '#')); }
    if a: nat, e: nat :| HeadingAt(line, a, e) {
      LeadIs(line, a);
      MarkRunIs(line, a, e, '#');
    }
  }

  lemma RuleIsExact(line: string, mark: char)
    requires !IsSpace(mark)
    ensures Rule(line, mark) <==> IsRule(line, mark)
  {
    LeadIsSpace(line);
    var l := Lead(line);
    MarkRun(line, l, mark);
    BlankTail(line, RunEnd(line, l, x => x == mark));
    if Rule(line, mark) { assert RuleAt(line, l, RunEnd(line, l, x => x == mark), mark); }
    if a: nat, e: nat :| RuleAt(line, a, e, mark) {
      assert line[a] == mark;
      LeadIs(line, a);
      MarkRunIs(line, a, e, mark);
    }
  }

  lemma BlankTail(line: string, e: nat)
    requires e <= |line|
    ensures Blank(line[e..]) <==> Spaces(line, e, |line|)
  {
    var t := line[e..];
    assert forall k :: 0 <= k < |t| ==> t[k] == line[e + k];
    if Blank(t) {
      forall k | e <= k < |line| ensures IsSpace(line[k]) { assert line[k] == t[k - e]; }
    }
  }

  lemma ReferenceIsExact(line: string)
    ensures ReferenceLink(line) <==> IsReference(line)
  {
    OpeningIsExact(line, '[');
    LeadIsSpace(line);
    var l := Lead(line);
    if Opening(line) == Some('[') {
      RunIsMaximal(line, l + 1, c => c != ']');
      if ReferenceLink(line) { assert ReferenceAt(line, l, RunEnd(line, l + 1, c => c != ']')); }
    }
    if a: nat, e: nat :| ReferenceAt(line, a, e) {
      LeadIs(line, a);
      RunStops(line, a + 1, e, c => c != ']');
    }
  }

  lemma PassThroughIsExact(line: string)
    ensures PassThrough(line) <==> IsPassedThrough(line)
  {
    HeadingIsExact(line);
    OpeningIsExact(line, '|');
    RuleIsExact(line, '-');
    RuleIsExact(line, '*');
    RuleIsExact(line, '_');
    OpeningIsExact(line, '<');
    ReferenceIsExact(line);
  }

  lemma QuoteIsExact(line: string, w: nat)
    requires w > 0
    ensures QuoteWidth(line) == w <==> IsQuotePrefix(line, w)
  {
    OpeningIsExact(line, '>');
    LeadIsSpace(line);
    if QuoteWidth(line) == w { assert QuoteAt(line, Lead(line), w); }
    if a: nat :| QuoteAt(line, a, w) { LeadIs(line, a); }
  }

  /** The sign the scanner finds, or nothing when there is none. */
  lemma ItemIsFound(digit: char -> bool, line: string, l: nat, e: nat)
    requires AreDigits(digit) && ItemAt(digit, line) == Some(ItemMark(l, e))
    ensures IsItem(digit, line, l, e)
  {
    LeadIsSpace(line);
    var d := RunEnd(line, l, digit);
    RunIsMaximal(line, l, digit);
    var p := if line[l] in "-*+" then l + 1 else d + 1;
    RunIsMaximal(line, p, IsSpace);
    assert ItemMarkAt(digit, line, l, p, e);
  }

  lemma ItemIsExact(digit: char -> bool, line: string, l: nat, e: nat)
    requires AreDigits(digit)
    ensures ItemAt(digit, line) == Some(ItemMark(l, e)) <==> IsItem(digit, line, l, e)
  {
    if ItemAt(digit, line) == Some(ItemMark(l, e)) { ItemIsFound(digit, line, l, e); }
    if p: nat :| ItemMarkAt(digit, line, l, p, e) {
      SignIsNoSpace(digit, line, l, p);
      LeadIs(line, l);
      if p > l + 1 { RunStops(line, l, p - 1, digit); }
      RunStops(line, p, e, IsSpace);
    }
  }

  lemma SignIsNoSpace(digit: char -> bool, line: string, l: nat, p: nat)
    requires AreDigits(digit) && IsSign(digit, line, l, p)
    ensures !IsSpace(line[l]) && (p > l + 1 ==> digit(line[l]) && !digit(line[p - 1]) && line[l] !in "-*+")
  {
  }

  lemma IndentedIsExact(line: string)
    ensures Indented(line) <==> (|line| >= 4 && Repeats(line, 0, 4, ' ')) || (|line| >= 1 && line[0] == '\t')
  {
    if |line| >= 4 { assert line[..4] == [line[0], line[1], line[2], line[3]]; }
    if |line| >= 1 { assert line[..1] == [line[0]]; }
    if |line| >= 4 && Repeats(line, 0, 4, ' ') { assert line[..4] == "    "; }
  }

  /** What the scanner is told about a line is what the patterns say of it. */
  lemma KindIsExact(digit: char -> bool, line: string, c: char, w: nat, l: nat, e: nat)
    requires AreDigits(digit) && w > 0
    ensures var kind := KindOf(digit, line);
            && (kind.fence == Some(c) <==> IsFence(line, c))
            && (kind.blank <==> Spaces(line, 0, |line|))
            && (kind.pass <==> IsPassedThrough(line))
            && (kind.indented <==> (|line| >= 4 && Repeats(line, 0, 4, ' ')) || (|line| >= 1 && line[0] == '\t'))
            && (kind.quote == w <==> IsQuotePrefix(line, w))
            && (kind.item == Some(ItemMark(l, e)) <==> IsItem(digit, line, l, e))
  {
    FenceIsExact(line, c);
    PassThroughIsExact(line);
    IndentedIsExact(line);
    QuoteIsExact(line, w);
    ItemIsExact(digit, line, l, e);
  }
}
