/** The script on whole texts: split into lines, scanned, and joined again. */
module MarkdownText {
  import opened Wrappers
  import opened Sequences
  import opened Text
  import opened Abbreviations
  import opened Restoring
  import opened MarkdownLines
  import opened Markdown
  import opened MarkdownWords
  import opened MarkdownScanner
  import Sentences
  import AbbreviationTable

  // ----- Lines -----

  /** The characters at which `str.splitlines` ends a line. */
  predicate IsBreak(c: char) {
    var n := c as int;
    10 <= n <= 13 || 28 <= n <= 30 || n == 0x85 || n == 0x2028 || n == 0x2029
  }

  /** They are these ten, by number. */
  lemma Breaks(c: char)
    ensures IsBreak(c) <==> c as int in {0x0A, 0x0B, 0x0C, 0x0D, 0x1C, 0x1D, 0x1E, 0x85, 0x2028, 0x2029}
  {
  }

  predicate BreakFree(s: string) {
    forall k :: 0 <= k < |s| ==> !IsBreak(s[k])
  }

  predicate AllBreakFree(lines: seq<string>) {
    lines == [] || (BreakFree(lines[0]) && AllBreakFree(lines[1..]))
  }

  /** Where the next line begins, behind the break at `e`; a carriage return and a newline are one break. */
  function NextLine(t: string, e: nat): (r: nat)
    requires e <= |t|
    ensures e <= r <= |t| && (e < |t| ==> e < r)
  {
    if e == |t| then e
    else if t[e] == '\r' && e + 1 < |t| && t[e + 1] == '\n' then e + 2
    else e + 1
  }

  function LineEnd(t: string): (r: nat)
    ensures r <= |t|
  {
    RunEnd(t, 0, c => !IsBreak(c))
  }

  /** `str.splitlines`. */
  function SplitLines(t: string): seq<string>
    decreases |t|
  {
    if t == "" then [] else [t[..LineEnd(t)]] + SplitLines(t[NextLine(t, LineEnd(t))..])
  }

  /** The lines with newlines between them. */
  function JoinLines(lines: seq<string>): string {
    if lines == [] then "" else if |lines| == 1 then lines[0] else lines[0] + "\n" + JoinLines(lines[1..])
  }

  /** The output: the lines joined, and a newline behind them when the input ended with one. */
  function Output(lines: seq<string>, trailing: bool): string {
    JoinLines(lines) + if trailing then "\n" else ""
  }

  predicate EndsWithNewline(t: string) {
    t != "" && t[|t| - 1] == '\n'
  }

  lemma LineEndIsFirstBreak(t: string)
    ensures BreakFree(t[..LineEnd(t)]) && (LineEnd(t) < |t| ==> IsBreak(t[LineEnd(t)]))
  {
    RunIsMaximal(t, 0, c => !IsBreak(c));
  }

  lemma {:induction false} LinesHaveNoBreak(t: string)
    ensures AllBreakFree(SplitLines(t))
    decreases |t|
  {
    if t != "" {
      LineEndIsFirstBreak(t);
      LinesHaveNoBreak(t[NextLine(t, LineEnd(t))..]);
    }
  }

  // ----- Splitting and joining undo each other -----

  lemma BreakFreeRun(s: string, rest: string)
    requires BreakFree(s) && (rest == "" || IsBreak(rest[0]))
    ensures LineEnd(s + rest) == |s|
  {
    var t := s + rest;
    RunIsMaximal(t, 0, c => !IsBreak(c));
    assert forall k :: 0 <= k < |s| ==> t[k] == s[k];
    assert rest != "" ==> t[|s|] == rest[0];
    assert |s| < |t| ==> IsBreak(t[|s|]);
  }

  /** A line, a newline, and more. */
  lemma SplitFirstLine(s: string, rest: string)
    requires BreakFree(s)
    ensures SplitLines(s + ("\n" + rest)) == [s] + SplitLines(rest)
  {
    var t := s + ("\n" + rest);
    BreakFreeRun(s, "\n" + rest);
    assert t[..|s|] == s && t[|s|] == '\n' && t[|s| + 1..] == rest;
  }

  /**
   Splitting, break by break: a carriage return and a newline are one break, every other break is one of its own,
   and nothing follows a last one.
   */
  lemma SplitAtBreak(s: string, c: char, rest: string)
    requires BreakFree(s) && IsBreak(c)
    ensures !(c == '\r' && rest != "" && rest[0] == '\n') ==> SplitLines(s + ([c] + rest)) == [s] + SplitLines(rest)
    ensures c == '\r' && rest != "" && rest[0] == '\n' ==> SplitLines(s + ([c] + rest)) == [s] + SplitLines(rest[1..])
  {
    var t := s + ([c] + rest);
    BreakFreeRun(s, [c] + rest);
    assert t[..|s|] == s && t[|s|] == c && t[|s| + 1..] == rest;
    if rest != "" { assert t[|s| + 1] == rest[0] && t[|s| + 2..] == rest[1..]; }
  }

  lemma SplitOneLine(s: string)
    requires BreakFree(s)
    ensures SplitLines(s) == if s == "" then [] else [s]
  {
    BreakFreeRun(s, "");
    assert s + "" == s && s[..|s|] == s && s[|s|..] == "";
  }

  lemma OutputOfMore(first: string, rest: seq<string>, trailing: bool)
    requires rest != []
    ensures Output([first] + rest, trailing) == first + ("\n" + Output(rest, trailing))
  {
    var end := if trailing then "\n" else "";
    assert ([first] + rest)[1..] == rest;
    Associate(first + "\n", JoinLines(rest), end);
    Associate(first, "\n", JoinLines(rest) + end);
  }

  /** The lines without an empty last one, which leaves no trace unless a newline follows. */
  function Visible(lines: seq<string>, trailing: bool): seq<string>
    requires lines != []
  {
    if trailing || lines[|lines| - 1] != "" then lines else lines[..|lines| - 1]
  }

  lemma VisibleOfMore(first: string, rest: seq<string>, trailing: bool)
    requires rest != []
    ensures Visible([first] + rest, trailing) == [first] + Visible(rest, trailing)
  {
  }

  lemma SplitLastLine(s: string, trailing: bool)
    requires BreakFree(s)
    ensures SplitLines(Output([s], trailing)) == Visible([s], trailing)
  {
    SplitOneLine(s);
    SplitFirstLine(s, "");
    assert s + ("\n" + "") == s + "\n" && s + "" == s;
  }

  /** Lines without breaks come back when they are joined and split again, an empty last one aside. */
  lemma {:induction false} SplitOutput(lines: seq<string>, trailing: bool)
    requires AllBreakFree(lines) && lines != []
    ensures SplitLines(Output(lines, trailing)) == Visible(lines, trailing)
  {
    var first, rest := lines[0], lines[1..];
    assert lines == [first] + rest;
    if rest == [] {
      SplitLastLine(first, trailing);
    } else {
      SplitOutput(rest, trailing);
      OutputOfMore(first, rest, trailing);
      SplitFirstLine(first, Output(rest, trailing));
      VisibleOfMore(first, rest, trailing);
    }
  }

  /** Every line break of the text is a newline. */
  predicate OnlyNewlines(t: string) {
    forall k :: 0 <= k < |t| && IsBreak(t[k]) ==> t[k] == '\n'
  }

  lemma OnlyNewlinesConcat(a: string, b: string)
    ensures OnlyNewlines(a + b) <==> OnlyNewlines(a) && OnlyNewlines(b)
  {
    var t := a + b;
    assert forall k :: 0 <= k < |a| ==> a[k] == t[k];
    assert forall k :: 0 <= k < |b| ==> b[k] == t[|a| + k];
  }

  lemma {:induction false} OutputHasOnlyNewlines(lines: seq<string>, trailing: bool)
    requires AllBreakFree(lines)
    ensures OnlyNewlines(Output(lines, trailing))
  {
    if lines == [] {
    } else if |lines| == 1 {
      OnlyNewlinesConcat(lines[0], if trailing then "\n" else "");
    } else {
      OutputHasOnlyNewlines(lines[1..], trailing);
      assert lines == [lines[0]] + lines[1..];
      OutputOfMore(lines[0], lines[1..], trailing);
      OnlyNewlinesConcat("\n", Output(lines[1..], trailing));
      OnlyNewlinesConcat(lines[0], "\n" + Output(lines[1..], trailing));
    }
  }

  lemma CutAround(t: string, e: nat, n: nat)
    requires e <= n <= |t|
    ensures t == t[..e] + (t[e..n] + t[n..])
  {
  }

  lemma OnlyLine(t: string)
    requires t != "" && LineEnd(t) == |t|
    ensures SplitLines(t) == [t] && !EndsWithNewline(t)
  {
    LineEndIsFirstBreak(t);
    assert t[..|t|] == t;
    SplitOneLine(t);
  }

  lemma LineAndMore(t: string, e: nat)
    requires OnlyNewlines(t) && e == LineEnd(t) < |t|
    ensures t == t[..e] + ("\n" + t[e + 1..]) && SplitLines(t) == [t[..e]] + SplitLines(t[e + 1..])
  {
    LineEndIsFirstBreak(t);
    CutAround(t, e, e + 1);
    assert t[e..e + 1] == "\n";
    SplitFirstLine(t[..e], t[e + 1..]);
  }

  lemma SplitIsEmpty(t: string)
    ensures SplitLines(t) == [] <==> t == ""
  {
  }

  lemma LineComesBack(line: string, rest: string, lines: seq<string>)
    requires lines == SplitLines(rest) && Output(lines, EndsWithNewline(rest)) == rest
    ensures Output([line] + lines, EndsWithNewline(line + ("\n" + rest))) == line + ("\n" + rest)
  {
    var t := line + ("\n" + rest);
    assert t[|t| - 1] == ("\n" + rest)[|rest|];
    SplitIsEmpty(rest);
    if rest == "" {
      assert [line] + lines == [line] && "\n" + rest == "\n";
    } else {
      assert t[|t| - 1] == rest[|rest| - 1];
      OutputOfMore(line, lines, EndsWithNewline(rest));
    }
  }

  lemma {:induction false} NewlinesComeBack(t: string)
    requires OnlyNewlines(t)
    ensures Output(SplitLines(t), EndsWithNewline(t)) == t
    decreases |t|
  {
    if t != "" {
      var e := LineEnd(t);
      if e == |t| {
        OnlyLine(t);
        assert t + "" == t;
      } else {
        LineAndMore(t, e);
        var rest := t[e + 1..];
        OnlyNewlinesConcat(t[..e], "\n" + rest);
        OnlyNewlinesConcat("\n", rest);
        NewlinesComeBack(rest);
        LineComesBack(t[..e], rest, SplitLines(rest));
      }
    }
  }

  /** A text of copied lines comes back unchanged if and only if all its line breaks are newlines. */
  lemma LinesRoundTrip(t: string)
    ensures Output(SplitLines(t), EndsWithNewline(t)) == t <==> OnlyNewlines(t)
  {
    LinesHaveNoBreak(t);
    OutputHasOnlyNewlines(SplitLines(t), EndsWithNewline(t));
    if OnlyNewlines(t) { NewlinesComeBack(t); }
  }

  // ----- The words of a text are those of its lines -----

  lemma BreakIsSpace(c: char)
    ensures IsBreak(c) ==> IsSpace(c)
  {
  }

  lemma WordsBehindBreak(line: string, gap: string, rest: string)
    requires gap == "" ==> rest == ""
    requires gap != "" ==> Blank(gap)
    ensures Words(line + (gap + rest)) == Words(line) + Words(rest)
  {
    if gap == "" {
      assert line + (gap + rest) == line && Words("") == [];
    } else {
      Sentences.WordsAcross(line, gap, rest);
    }
  }

  lemma BreakIsBlank(t: string, e: nat, n: nat)
    requires e == LineEnd(t) && n == NextLine(t, e)
    ensures Blank(t[e..n]) && (t[e..n] == "" ==> t[n..] == "")
  {
    LineEndIsFirstBreak(t);
  }

  lemma {:induction false} WordsOfLines(t: string)
    ensures Words(t) == WordsOf(SplitLines(t))
    decreases |t|
  {
    if t != "" {
      var e := LineEnd(t);
      var n := NextLine(t, e);
      var line, gap, rest := t[..e], t[e..n], t[n..];
      WordsOfLines(rest);
      BreakIsBlank(t, e, n);
      CutAround(t, e, n);
      WordsBehindBreak(line, gap, rest);
      WordsOfCons(line, SplitLines(rest));
    }
  }

  lemma {:induction false} WordsOfOutput(lines: seq<string>, trailing: bool)
    ensures Words(Output(lines, trailing)) == WordsOf(lines)
  {
    BlankHasNoWords("\n");
    if lines == [] {
      assert JoinLines([]) == "" && Output(lines, trailing) == if trailing then "\n" else "";
    } else {
      var first, rest := lines[0], lines[1..];
      assert lines == [first] + rest;
      WordsOfCons(first, rest);
      if rest == [] {
        WordsOfConcat(first, "\n");
        assert first + "" == first;
      } else {
        WordsOfOutput(rest, trailing);
        OutputOfMore(first, rest, trailing);
        WordsBehindBreak(first, "\n", Output(rest, trailing));
      }
    }
  }

  // ----- No line of the output holds a break -----

  /** None of the texts holds the character. */
  predicate Avoid(lines: seq<string>, c: char) {
    lines == [] || (c !in lines[0] && Avoid(lines[1..], c))
  }

  lemma {:induction false} AvoidConcat(a: seq<string>, b: seq<string>, c: char)
    ensures Avoid(a + b, c) <==> Avoid(a, c) && Avoid(b, c)
  {
    if a == [] {
      assert a + b == b;
    } else {
      AvoidConcat(a[1..], b, c);
      assert (a + b)[1..] == a[1..] + b && (a + b)[0] == a[0];
    }
  }

  lemma {:induction false} AvoidAt(lines: seq<string>, c: char, k: nat)
    requires Avoid(lines, c) && k < |lines|
    ensures c !in lines[k]
  {
    if k > 0 { AvoidAt(lines[1..], c, k - 1); }
  }

  lemma {:induction false} ReplaceAvoids(s: string, p: string, r: string, c: char)
    requires p != "" && c !in s && c !in r
    ensures c !in Replace(s, p, r)
    decreases |s|
  {
    if s == "" {
    } else if p <= s {
      ReplaceAvoids(s[|p|..], p, r, c);
    } else {
      ReplaceAvoids(s[1..], p, r, c);
    }
  }

  lemma TagAvoidsBreak(i: nat, c: char)
    requires i < 1000 && IsBreak(c)
    ensures c !in Tag(i)
  {
    BreakIsSpace(c);
    Sentences.TagHasNoSpace(i);
  }

  lemma {:induction false} HideAvoids(table: seq<string>, text: string, n: nat, c: char)
    requires IsTable(table) && n <= |table| && c !in text && IsBreak(c)
    ensures c !in Hide(table, text, n)
  {
    if n > 0 {
      HideAvoids(table, text, n - 1, c);
      TagAvoidsBreak(n - 1, c);
      ReplaceAvoids(Hide(table, text, n - 1), table[n - 1], Tag(n - 1), c);
    }
  }

  lemma {:induction false} RestoreAvoids(table: seq<string>, s: string, used: seq<nat>, c: char)
    requires IsTable(table) && Indices(table, used) && c !in s && Avoid(table, c)
    ensures c !in Restore(table, s, used)
    decreases used
  {
    if used != [] {
      AvoidAt(table, c, used[0]);
      ReplaceAvoids(s, Tag(used[0]), table[used[0]], c);
      RestoreAvoids(table, Replace(s, Tag(used[0]), table[used[0]]), used[1..], c);
    }
  }

  lemma {:induction false} RestoreEachAvoids(table: seq<string>, ss: seq<string>, used: seq<nat>, c: char)
    requires IsTable(table) && Indices(table, used) && Avoid(ss, c) && Avoid(table, c)
    ensures Avoid(Sentences.RestoreEach(table, ss, used), c)
  {
    if ss != [] {
      RestoreAvoids(table, ss[0], used, c);
      RestoreEachAvoids(table, ss[1..], used, c);
    }
  }

  lemma {:induction false} PiecesAvoid(s: string, start: nat, i: nat, c: char)
    requires start <= i <= |s| && c !in s
    ensures Avoid(Sentences.Gather(Sentences.Parts(s, start, i)), c)
    decreases |s| - i
  {
    if i == |s| {
      assert [s[start..]][1..] == [];
    } else if Sentences.EndAt(s, i).None? {
      PiecesAvoid(s, start, i + 1, c);
    } else {
      var cut := Sentences.EndAt(s, i).value;
      Sentences.SentenceAtCut(s, start, i, cut);
      PiecesAvoid(s, cut.next, cut.next, c);
      AvoidConcat([s[start..cut.blank]], Sentences.Gather(Sentences.Parts(s, cut.next, cut.next)), c);
    }
  }

  lemma {:induction false} StrippedAvoids(lines: seq<string>, c: char)
    requires Avoid(lines, c)
    ensures Avoid(Stripped(lines), c)
  {
    if lines != [] {
      StrippedAvoids(lines[1..], c);
      AvoidConcat(if Strip(lines[0]) == "" then [] else [Strip(lines[0])], Stripped(lines[1..]), c);
    }
  }

  lemma SentencesAvoid(table: seq<string>, text: string, c: char)
    requires IsTable(table) && c !in text && Avoid(table, c) && IsBreak(c)
    ensures Avoid(Sentences.Sentences(table, text), c)
  {
    var hidden, used := Hide(table, text, |table|), Used(table, text, |table|);
    var pieces := Sentences.Gather(Sentences.Parts(hidden, 0, 0));
    HideAvoids(table, text, |table|, c);
    PiecesAvoid(hidden, 0, 0, c);
    RestoreEachAvoids(table, pieces, used, c);
    StrippedAvoids(Sentences.RestoreEach(table, pieces, used), c);
  }

  lemma {:induction false} JoinAvoids(lines: seq<string>, c: char)
    requires Avoid(lines, c) && c != ' '
    ensures c !in Join(lines)
  {
    if |lines| > 1 { JoinAvoids(lines[1..], c); }
  }

  lemma {:induction false} PrefixedAvoids(prefix: string, ss: seq<string>, c: char)
    requires c !in prefix && Avoid(ss, c)
    ensures Avoid(Prefixed(prefix, ss), c)
  {
    if ss != [] { PrefixedAvoids(prefix, ss[1..], c); }
  }

  lemma {:induction false} ContinuationsAvoid(indent: string, marker: string, lines: seq<string>, c: char)
    requires Avoid(lines, c)
    ensures Avoid(ContinuationTexts(indent, marker, lines), c)
  {
    if lines != [] { ContinuationsAvoid(indent, marker, lines[1..], c); }
  }

  lemma {:induction false} RowsAvoid(rows: seq<Row>, c: char)
    requires Avoid(Spell(rows), c)
    ensures Avoid(RowTexts(rows), c)
  {
    if rows != [] {
      RowsAvoid(rows[1..], c);
      assert c !in rows[0].prefix + rows[0].text;
    }
  }

  predicate BlockAvoids(b: Block, c: char) {
    Avoid(Source(b), c) && (b.Quote? ==> c !in b.prefix)
  }

  lemma TextsAvoid(b: Block, c: char)
    requires BlockAvoids(b, c)
    ensures Avoid(Texts(b), c)
    ensures b.Item? ==> c !in b.indent && c !in b.marker && c !in b.first
  {
    match b
    case Verbatim(_) =>
    case Paragraph(_) =>
    case Item(indent, marker, first, rest) =>
      assert Source(b)[0] == indent + marker + first && Source(b)[1..] == rest;
      assert c !in indent + marker + first;
      ContinuationsAvoid(indent, marker, rest, c);
      AvoidConcat([first], ContinuationTexts(indent, marker, rest), c);
    case Quote(_, rows) => RowsAvoid(rows, c);
  }

  lemma ItemLinesAvoid(indent: string, marker: string, first: string, ss: seq<string>, c: char)
    requires c !in indent && c !in marker && c !in first && Avoid(ss, c) && c != ' '
    ensures Avoid(ItemLines(indent, marker, first, ss), c)
  {
    if ss == [] {
      assert [indent + marker + first][1..] == [];
    } else {
      PrefixedAvoids(Hanging(indent, marker), ss[1..], c);
      AvoidConcat([indent + marker + ss[0]], Prefixed(Hanging(indent, marker), ss[1..]), c);
    }
  }

  lemma TargetAvoids(table: seq<string>, b: Block, c: char)
    requires IsTable(table) && Avoid(table, c) && IsBreak(c) && BlockAvoids(b, c)
    ensures Avoid(Target(table, b), c)
  {
    TextsAvoid(b, c);
    StrippedAvoids(Texts(b), c);
    JoinAvoids(Stripped(Texts(b)), c);
    SentencesAvoid(table, Joined(b), c);
    var ss := Sentences.Sentences(table, Joined(b));
    match b
    case Verbatim(_) =>
    case Paragraph(_) =>
    case Item(indent, marker, first, _) => ItemLinesAvoid(indent, marker, first, ss, c);
    case Quote(prefix, _) => PrefixedAvoids(prefix, ss, c);
  }

  predicate PrefixesAvoid(bs: seq<Block>, c: char) {
    bs == [] || ((bs[0].Quote? ==> c !in bs[0].prefix) && PrefixesAvoid(bs[1..], c))
  }

  lemma {:induction false} PrefixesConcat(a: seq<Block>, b: seq<Block>, c: char)
    requires PrefixesAvoid(a, c) && PrefixesAvoid(b, c)
    ensures PrefixesAvoid(a + b, c)
  {
    if a == [] {
      assert a + b == b;
    } else {
      PrefixesConcat(a[1..], b, c);
      assert (a + b)[1..] == a[1..] + b && (a + b)[0] == a[0];
    }
  }

  lemma {:induction false} QuotePrefixes(prefix: string, buf: seq<Row>, rows: seq<Row>, c: char)
    requires c !in prefix
    ensures PrefixesAvoid(QuoteBlocks(prefix, buf, rows), c)
    decreases |rows|
  {
    if rows == [] {
    } else if Blank(rows[0].text) {
      var copy, rest := Verbatim(rows[0].prefix + rows[0].text), QuoteBlocks(prefix, [], rows[1..]);
      QuotePrefixes(prefix, [], rows[1..], c);
      PrefixesConcat([copy], rest, c);
      PrefixesConcat(Flush(prefix, buf), [copy] + rest, c);
    } else {
      QuotePrefixes(prefix, buf + [rows[0]], rows[1..], c);
    }
  }

  lemma TurnPrefixes(lines: seq<string>, kinds: seq<Kind>, i: nat, fence: Option<char>, t: Turn, c: char)
    requires DescribeAll(kinds, lines) && i < |lines| && t == TurnAt(lines, kinds, i, fence) && Avoid(lines, c)
    ensures PrefixesAvoid(t.blocks, c)
  {
    AvoidAt(lines, c, i);
    var prefix := lines[i][..kinds[i].quote];
    if fence.None? && !Copied(kinds, i) && kinds[i].quote > 0 {
      QuotePrefixes(prefix, [], Rows(lines, kinds, i, t.next), c);
    }
  }

  lemma {:induction false} BlockPrefixes(lines: seq<string>, kinds: seq<Kind>, i: nat, fence: Option<char>, c: char)
    requires DescribeAll(kinds, lines) && i <= |lines| && Avoid(lines, c)
    ensures PrefixesAvoid(Blocks(lines, kinds, i, fence), c)
    decreases |lines| - i
  {
    if i < |lines| {
      var t := TurnAt(lines, kinds, i, fence);
      TurnPrefixes(lines, kinds, i, fence, t, c);
      BlockPrefixes(lines, kinds, t.next, t.fence, c);
      PrefixesConcat(t.blocks, Blocks(lines, kinds, t.next, t.fence), c);
    }
  }

  lemma {:induction false} VerbatimPrefixes(lines: seq<string>, c: char)
    ensures PrefixesAvoid(Verbatims(lines), c)
  {
    if lines != [] {
      VerbatimPrefixes(lines[1..], c);
      PrefixesConcat([Verbatim(lines[0])], Verbatims(lines[1..]), c);
    }
  }

  lemma {:induction false} TargetsAvoid(table: seq<string>, bs: seq<Block>, c: char)
    requires IsTable(table) && Avoid(table, c) && IsBreak(c) && Avoid(Sources(bs), c) && PrefixesAvoid(bs, c)
    ensures Avoid(Targets(table, bs), c)
  {
    if bs != [] {
      AvoidConcat(Source(bs[0]), Sources(bs[1..]), c);
      TargetAvoids(table, bs[0], c);
      TargetsAvoid(table, bs[1..], c);
      AvoidConcat(Target(table, bs[0]), Targets(table, bs[1..]), c);
    }
  }

  lemma {:induction false} BreakFreeAvoids(lines: seq<string>, c: char)
    requires AllBreakFree(lines) && IsBreak(c)
    ensures Avoid(lines, c)
  {
    if lines != [] { BreakFreeAvoids(lines[1..], c); }
  }

  lemma {:induction false} AvoidsIsBreakFree(lines: seq<string>)
    requires forall c :: IsBreak(c) ==> Avoid(lines, c)
    ensures AllBreakFree(lines)
  {
    if lines != [] {
      forall c | IsBreak(c) ensures c !in lines[0] && Avoid(lines[1..], c) { assert Avoid(lines, c); }
      AvoidsIsBreakFree(lines[1..]);
    }
  }

  lemma DocumentAvoids(table: seq<string>, digit: char -> bool, lines: seq<string>, c: char)
    requires IsTable(table) && Avoid(table, c) && IsBreak(c) && Avoid(lines, c)
    ensures Avoid(Targets(table, DocumentOf(digit, lines)), c)
  {
    var kinds, f := KindsOf(digit, lines), Front(lines);
    KindsDescribe(digit, lines);
    EveryLineIsInABlock(lines, kinds);
    VerbatimPrefixes(lines[..f], c);
    BlockPrefixes(lines, kinds, f, None, c);
    PrefixesConcat(Verbatims(lines[..f]), Blocks(lines, kinds, f, None), c);
    TargetsAvoid(table, DocumentOf(digit, lines), c);
  }

  // ----- The script -----

  /** The lines of the output. */
  function ScriptLines(table: seq<string>, digit: char -> bool, text: string): seq<string>
    requires IsTable(table)
  {
    Targets(table, DocumentOf(digit, SplitLines(text)))
  }

  function Script(table: seq<string>, digit: char -> bool, text: string): string
    requires IsTable(table)
  {
    Output(ScriptLines(table, digit, text), EndsWithNewline(text))
  }

  method ProcessText(table: seq<string>, digit: char -> bool, text: string) returns (r: string)
    requires IsTable(table)
    ensures r == Script(table, digit, text)
  {
    var out := Process(table, digit, SplitLines(text));
    var trailing := if EndsWithNewline(text) then "\n" else "";
    r := JoinLines(out) + trailing;
  }

  /** One target line per output line: reading the output gives the target lines back, an empty last one aside. */
  lemma OutputLines(table: seq<string>, digit: char -> bool, text: string)
    requires IsTable(table) && AllBreakFree(table)
    ensures var out := ScriptLines(table, digit, text);
            && AllBreakFree(out)
            && (out != [] ==> SplitLines(Script(table, digit, text)) == Visible(out, EndsWithNewline(text)))
  {
    var lines, out := SplitLines(text), ScriptLines(table, digit, text);
    LinesHaveNoBreak(text);
    forall c | IsBreak(c) ensures Avoid(out, c) {
      BreakFreeAvoids(table, c);
      BreakFreeAvoids(lines, c);
      DocumentAvoids(table, digit, lines, c);
    }
    AvoidsIsBreakFree(out);
    if out != [] { SplitOutput(out, EndsWithNewline(text)); }
  }

  // ----- Documents of copied lines -----

  predicate AllCopied(bs: seq<Block>) {
    bs == [] || (bs[0].Verbatim? && AllCopied(bs[1..]))
  }

  lemma {:induction false} CopiedIsKept(table: seq<string>, bs: seq<Block>)
    requires IsTable(table) && AllCopied(bs)
    ensures Targets(table, bs) == Sources(bs)
  {
    if bs != [] { CopiedIsKept(table, bs[1..]); }
  }

  /** A document of lines that are all copied comes back unchanged if and only if its line breaks are newlines. */
  lemma CopiedDocument(table: seq<string>, digit: char -> bool, text: string)
    requires IsTable(table) && AllCopied(DocumentOf(digit, SplitLines(text)))
    ensures Script(table, digit, text) == text <==> OnlyNewlines(text)
  {
    var lines := SplitLines(text);
    KindsDescribe(digit, lines);
    EveryLineIsInABlock(lines, KindsOf(digit, lines));
    CopiedIsKept(table, DocumentOf(digit, lines));
    LinesRoundTrip(text);
  }

  /** A text that the script leaves alone has no line break but newlines, copied or not. */
  lemma FixedPointHasOnlyNewlines(table: seq<string>, digit: char -> bool, text: string)
    requires IsTable(table) && AllBreakFree(table) && Script(table, digit, text) == text
    ensures OnlyNewlines(text)
  {
    OutputLines(table, digit, text);
    OutputHasOnlyNewlines(ScriptLines(table, digit, text), EndsWithNewline(text));
  }

  lemma HeadingIsPassedThrough(line: string)
    requires |line| >= 2 && line[0] == '#' && line[1] == ' '
    ensures PassThrough(line)
  {
    assert Lead(line) == 0;
    assert RunEnd(line, 0, c => c == '#') == 1;
  }

  lemma TwoHeadingsAreLines(a: string, b: string, gap: char)
    requires BreakFree(a) && BreakFree(b) && b != "" && IsBreak(gap) && gap != '\r'
    ensures SplitLines(a + ([gap] + b)) == [a, b]
  {
    var t := a + ([gap] + b);
    BreakFreeRun(a, [gap] + b);
    assert t[..|a|] == a && t[|a|] == gap && t[|a| + 1..] == b;
    SplitOneLine(b);
  }

  lemma {:induction false} CopiedConcat(a: seq<Block>, b: seq<Block>)
    requires AllCopied(a) && AllCopied(b)
    ensures AllCopied(a + b)
  {
    if a == [] {
      assert a + b == b;
    } else {
      CopiedConcat(a[1..], b);
      assert (a + b)[1..] == a[1..] + b && (a + b)[0] == a[0];
    }
  }

  lemma {:induction false} VerbatimsAreCopied(lines: seq<string>)
    ensures AllCopied(Verbatims(lines))
  {
    if lines != [] {
      VerbatimsAreCopied(lines[1..]);
      CopiedConcat([Verbatim(lines[0])], Verbatims(lines[1..]));
    }
  }

  lemma {:induction false} PassedThroughIsCopied(lines: seq<string>, kinds: seq<Kind>, i: nat, fence: Option<char>)
    requires DescribeAll(kinds, lines) && i <= |lines| && forall k :: i <= k < |lines| ==> kinds[k].pass
    ensures AllCopied(Blocks(lines, kinds, i, fence))
    decreases |lines| - i
  {
    if i < |lines| {
      var t := TurnAt(lines, kinds, i, fence);
      assert Copied(kinds, i) && t.blocks == [Verbatim(lines[i])];
      PassedThroughIsCopied(lines, kinds, t.next, t.fence);
      CopiedConcat(t.blocks, Blocks(lines, kinds, t.next, t.fence));
    }
  }

  /** A document of pass-through lines is copied. */
  lemma PassedThroughDocument(digit: char -> bool, lines: seq<string>)
    requires forall k :: 0 <= k < |lines| ==> KindsOf(digit, lines)[k].pass
    ensures AllCopied(DocumentOf(digit, lines))
  {
    var kinds, f := KindsOf(digit, lines), Front(lines);
    KindsDescribe(digit, lines);
    VerbatimsAreCopied(lines[..f]);
    PassedThroughIsCopied(lines, kinds, f, None);
    CopiedConcat(Verbatims(lines[..f]), Blocks(lines, kinds, f, None));
  }

  lemma TwoHeadingsAreCopied(digit: char -> bool, a: string, b: string)
    requires PassThrough(a) && PassThrough(b)
    ensures AllCopied(DocumentOf(digit, [a, b]))
  {
    var kinds := KindsOf(digit, [a, b]);
    assert [a, b][1..] == [b] && [b][1..] == [];
    assert KindsOf(digit, [b]) == [KindOf(digit, b)] + KindsOf(digit, []);
    assert kinds[0] == KindOf(digit, a) && kinds[1] == KindOf(digit, b);
    PassedThroughDocument(digit, [a, b]);
  }

  /** Two headings with a vertical tab between them: both are copied, and the text is not. */
  lemma VerticalTabIsReplaced(table: seq<string>, digit: char -> bool, a: string, b: string)
    requires IsTable(table) && a == "# a" && b == "# b"
    ensures AllCopied(DocumentOf(digit, SplitLines(a + ([11 as char] + b))))
    ensures Script(table, digit, a + ([11 as char] + b)) != a + ([11 as char] + b)
  {
    var t := a + ([11 as char] + b);
    HeadingIsPassedThrough(a);
    HeadingIsPassedThrough(b);
    TwoHeadingsAreLines(a, b, 11 as char);
    TwoHeadingsAreCopied(digit, a, b);
    CopiedDocument(table, digit, t);
    assert t[|a|] == 11 as char;
  }

  lemma EntryInFront(k: nat)
    requires k < 20
    ensures BreakFree(AbbreviationTable.ABBREVS[k])
  {
  }

  lemma EntryBehind(k: nat)
    requires 20 <= k < |AbbreviationTable.ABBREVS|
    ensures BreakFree(AbbreviationTable.ABBREVS[k])
  {
  }

  lemma EntryHasNoBreak(k: nat)
    requires k < |AbbreviationTable.ABBREVS|
    ensures BreakFree(AbbreviationTable.ABBREVS[k])
  {
    if k < 20 { EntryInFront(k); } else { EntryBehind(k); }
  }

  lemma {:induction false} BreakFreeEach(lines: seq<string>)
    requires forall w :: w in lines ==> BreakFree(w)
    ensures AllBreakFree(lines)
  {
    if lines != [] { BreakFreeEach(lines[1..]); }
  }

  /** The table of the script meets what `OutputLines` asks, in whatever order it is tried. */
  lemma ScriptTableHasNoBreak(table: seq<string>)
    requires AbbreviationTable.IsOrder(table)
    ensures IsTable(table) && AllBreakFree(table)
  {
    AbbreviationTable.ScriptEntries();
    AbbreviationTable.OrderOfEntries(AbbreviationTable.ABBREVS, table);
    forall w | w in table ensures BreakFree(w) {
      var k :| 0 <= k < |AbbreviationTable.ABBREVS| && AbbreviationTable.ABBREVS[k] == w;
      EntryHasNoBreak(k);
    }
    BreakFreeEach(table);
  }

  /** So with the script's own table the output has one target line per line, in whatever order it is tried. */
  lemma ScriptOutputLines(table: seq<string>, digit: char -> bool, text: string)
    requires AbbreviationTable.IsOrder(table)
    ensures IsTable(table) && AllBreakFree(ScriptLines(table, digit, text))
    ensures var out := ScriptLines(table, digit, text);
            out != [] ==> SplitLines(Script(table, digit, text)) == Visible(out, EndsWithNewline(text))
    ensures Script(table, digit, text) == text ==> OnlyNewlines(text)
  {
    ScriptTableHasNoBreak(table);
    OutputLines(table, digit, text);
    if Script(table, digit, text) == text { FixedPointHasOnlyNewlines(table, digit, text); }
  }

  // ----- The words of a document -----

  /** The words of the blocks as they were read, quotations without their prefixes. */
  function ReadWords(bs: seq<Block>): seq<string> {
    if bs == [] then [] else SourceWords(bs[0]) + ReadWords(bs[1..])
  }

  /** The words of the blocks as they are written, quotations without their prefixes. */
  function WrittenWords(table: seq<string>, bs: seq<Block>): seq<string>
    requires IsTable(table)
  {
    if bs == [] then [] else TargetWords(table, bs[0]) + WrittenWords(table, bs[1..])
  }

  predicate AllUnambiguous(table: seq<string>, bs: seq<Block>)
    requires IsTable(table)
  {
    bs == [] || ((bs[0].Verbatim? || Unambiguous(table, Joined(bs[0]))) && AllUnambiguous(table, bs[1..]))
  }

  lemma ItemHasNul(b: Block, ss: seq<string>)
    requires b.Item? && WellMade(b) && Holds(WordsOf(ss), NUL)
    ensures Holds(WordsOf(ItemLines(b.indent, b.marker, b.first, ss)), NUL)
  {
    ItemLinesWords(b.indent, b.marker, b.first, ss);
    HoldsConcat(Words(b.indent + b.marker), WordsOf(ss), NUL);
  }

  /** An ambiguous block leaves a NUL among the words. */
  lemma AmbiguousBlockHasNul(table: seq<string>, b: Block)
    requires IsTable(table) && WellMade(b) && NulFreeAll(Source(b)) && !b.Verbatim?
    requires !Unambiguous(table, Joined(b))
    ensures Holds(TargetWords(table, b), NUL)
  {
    var ss := Sentences.Sentences(table, Joined(b));
    JoinedIsNulFree(b);
    Sentences.SentencesKeepWords(table, Joined(b));
    match b
    case Paragraph(_) =>
    case Item(_, _, _, _) => ItemHasNul(b, ss);
    case Quote(prefix, _) => PrefixedIsRemovable(prefix, ss);
  }

  lemma SourceHasNoNul(b: Block)
    requires NulFreeAll(Source(b))
    ensures !Holds(SourceWords(b), NUL)
  {
    if b.Quote? {
      NulFreeRows(b.rows);
      NulFreeWords(RowTexts(b.rows));
    } else {
      NulFreeWords(Source(b));
    }
  }

  lemma {:induction false} BlocksKeepWords(table: seq<string>, bs: seq<Block>)
    requires IsTable(table) && AllWellMade(bs) && NulFreeAll(Sources(bs))
    ensures AllUnambiguous(table, bs) ==> WrittenWords(table, bs) == ReadWords(bs)
    ensures !AllUnambiguous(table, bs) ==> Holds(WrittenWords(table, bs), NUL)
    ensures !Holds(ReadWords(bs), NUL)
  {
    if bs != [] {
      var b, rest := bs[0], bs[1..];
      NulFreeParts(Source(b), Sources(rest));
      BlocksKeepWords(table, rest);
      BlockKeepsWords(table, b);
      SourceHasNoNul(b);
      HoldsConcat(SourceWords(b), ReadWords(rest), NUL);
      HoldsConcat(TargetWords(table, b), WrittenWords(table, rest), NUL);
      if !b.Verbatim? && !Unambiguous(table, Joined(b)) { AmbiguousBlockHasNul(table, b); }
    }
  }

  /** A NUL-free document keeps all its words, in order, if and only if the text of every block is unambiguous. */
  lemma ScriptKeepsWords(table: seq<string>, digit: char -> bool, text: string)
    requires IsTable(table) && NulFree(text)
    ensures var bs := DocumentOf(digit, SplitLines(text));
            WrittenWords(table, bs) == ReadWords(bs) <==> AllUnambiguous(table, bs)
  {
    var lines := SplitLines(text);
    var kinds := KindsOf(digit, lines);
    KindsDescribe(digit, lines);
    WordsOfLines(text);
    WordsHoldTheLetters(text, NUL);
    NulFreeWords(lines);
    EveryLineIsInABlock(lines, kinds);
    DocumentIsWellMade(lines, kinds);
    BlocksKeepWords(table, DocumentOf(digit, lines));
  }

  predicate NoQuotes(bs: seq<Block>) {
    bs == [] || (!bs[0].Quote? && NoQuotes(bs[1..]))
  }

  lemma {:induction false} WordsWithoutQuotes(table: seq<string>, bs: seq<Block>)
    requires IsTable(table) && NoQuotes(bs)
    ensures ReadWords(bs) == WordsOf(Sources(bs)) && WrittenWords(table, bs) == WordsOf(Targets(table, bs))
  {
    if bs != [] {
      WordsWithoutQuotes(table, bs[1..]);
      WordsOfAppend(Source(bs[0]), Sources(bs[1..]));
      WordsOfAppend(Target(table, bs[0]), Targets(table, bs[1..]));
    }
  }

  /** Without quotations these are the words of the whole input and of the whole output. */
  lemma TextKeepsWords(table: seq<string>, digit: char -> bool, text: string)
    requires IsTable(table) && NulFree(text) && NoQuotes(DocumentOf(digit, SplitLines(text)))
    ensures Words(Script(table, digit, text)) == Words(text)
            <==> AllUnambiguous(table, DocumentOf(digit, SplitLines(text)))
  {
    var lines := SplitLines(text);
    KindsDescribe(digit, lines);
    EveryLineIsInABlock(lines, KindsOf(digit, lines));
    WordsOfLines(text);
    WordsOfOutput(ScriptLines(table, digit, text), EndsWithNewline(text));
    WordsWithoutQuotes(table, DocumentOf(digit, lines));
    ScriptKeepsWords(table, digit, text);
  }
}
