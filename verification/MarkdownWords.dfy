/** What the lines of a document become, and which of its words that keeps. */
module MarkdownWords {
  import opened Wrappers
  import opened Sequences
  import opened Text
  import opened Abbreviations
  import opened Restoring
  import opened MarkdownLines
  import opened Markdown
  import Sentences

  // ----- What a block becomes -----

  function ContinuationText(indent: string, marker: string, line: string): string {
    var hanging := Hanging(indent, marker);
    if hanging <= line then line[|hanging|..] else StripLeft(line)
  }

  function ContinuationTexts(indent: string, marker: string, lines: seq<string>): seq<string> {
    if lines == [] then []
    else [ContinuationText(indent, marker, lines[0])] + ContinuationTexts(indent, marker, lines[1..])
  }

  function RowTexts(rows: seq<Row>): seq<string> {
    if rows == [] then [] else [rows[0].text] + RowTexts(rows[1..])
  }

  /** The texts that are joined: the lines without item marker, indentation or quote prefix. */
  function Texts(b: Block): seq<string> {
    match b
    case Verbatim(line) => [line]
    case Paragraph(lines) => lines
    case Item(indent, marker, first, rest) => [first] + ContinuationTexts(indent, marker, rest)
    case Quote(_, rows) => RowTexts(rows)
  }

  /** The text of the block, as it is handed to the sentence splitter. */
  function Joined(b: Block): string {
    Join(Stripped(Texts(b)))
  }

  function Prefixed(prefix: string, ss: seq<string>): seq<string> {
    if ss == [] then [] else [prefix + ss[0]] + Prefixed(prefix, ss[1..])
  }

  function ItemLines(indent: string, marker: string, first: string, ss: seq<string>): seq<string> {
    if ss == [] then [indent + marker + first]
    else [indent + marker + ss[0]] + Prefixed(Hanging(indent, marker), ss[1..])
  }

  /** The lines the block becomes. */
  function Target(table: seq<string>, b: Block): seq<string>
    requires IsTable(table)
  {
    match b
    case Verbatim(line) => [line]
    case Paragraph(_) => Sentences.Sentences(table, Joined(b))
    case Item(indent, marker, first, _) => ItemLines(indent, marker, first, Sentences.Sentences(table, Joined(b)))
    case Quote(prefix, _) => Prefixed(prefix, Sentences.Sentences(table, Joined(b)))
  }

  function Targets(table: seq<string>, bs: seq<Block>): seq<string>
    requires IsTable(table)
  {
    if bs == [] then [] else Target(table, bs[0]) + Targets(table, bs[1..])
  }

  // ----- The words of a block -----

  /** The lines without their first `n` characters. */
  function Unprefixed(n: nat, lines: seq<string>): seq<string> {
    if lines == [] then []
    else (if n <= |lines[0]| then [lines[0][n..]] else []) + Unprefixed(n, lines[1..])
  }

  /** The words of the lines, of a quotation without the quote prefixes. */
  function SourceWords(b: Block): seq<string> {
    match b
    case Quote(_, rows) => WordsOf(RowTexts(rows))
    case _ => WordsOf(Source(b))
  }

  function TargetWords(table: seq<string>, b: Block): seq<string>
    requires IsTable(table)
  {
    match b
    case Quote(prefix, _) => WordsOf(Unprefixed(|prefix|, Target(table, b)))
    case _ => WordsOf(Target(table, b))
  }

  /** The indentation of an item is blank, and its marker ends with whitespace. */
  predicate WellMade(b: Block) {
    b.Item? ==> Blank(b.indent) && b.marker != "" && IsSpace(b.marker[|b.marker| - 1])
  }

  lemma JoinedWords(b: Block)
    ensures Words(Joined(b)) == WordsOf(Texts(b))
  {
    StrippedKeepsWords(Texts(b));
    JoinKeepsWords(Stripped(Texts(b)));
  }

  lemma WordsOfCons(s: string, ss: seq<string>)
    ensures WordsOf([s] + ss) == Words(s) + WordsOf(ss)
  {
    assert ([s] + ss)[1..] == ss;
  }

  lemma {:induction false} PrefixedIsRemovable(prefix: string, ss: seq<string>)
    ensures Unprefixed(|prefix|, Prefixed(prefix, ss)) == ss
  {
    if ss != [] {
      PrefixedIsRemovable(prefix, ss[1..]);
      assert (prefix + ss[0])[|prefix|..] == ss[0];
    }
  }

  lemma {:induction false} BlankPrefixKeepsWords(prefix: string, ss: seq<string>)
    requires Blank(prefix)
    ensures WordsOf(Prefixed(prefix, ss)) == WordsOf(ss)
  {
    if ss != [] {
      BlankPrefixKeepsWords(prefix, ss[1..]);
      BlankHasNoWords(prefix);
      WordsOfConcat(prefix, ss[0]);
      WordsOfCons(prefix + ss[0], Prefixed(prefix, ss[1..]));
    }
  }

  lemma ContinuationKeepsWords(indent: string, marker: string, line: string)
    requires Blank(indent)
    ensures Words(ContinuationText(indent, marker, line)) == Words(line)
  {
    var hanging := Hanging(indent, marker);
    if hanging <= line {
      BlankAround(hanging, line[|hanging|..], "");
      assert hanging + line[|hanging|..] + "" == line;
    } else {
      StripLeftKeepsWords(line);
    }
  }

  lemma {:induction false} ContinuationsKeepWords(indent: string, marker: string, lines: seq<string>)
    requires Blank(indent)
    ensures WordsOf(ContinuationTexts(indent, marker, lines)) == WordsOf(lines)
  {
    if lines != [] {
      ContinuationKeepsWords(indent, marker, lines[0]);
      ContinuationsKeepWords(indent, marker, lines[1..]);
    }
  }

  /** An item marker in front of a text is words of its own. */
  lemma MarkerWords(indent: string, marker: string, s: string)
    requires marker != "" && IsSpace(marker[|marker| - 1])
    ensures Words(indent + marker + s) == Words(indent + marker) + Words(s)
  {
    WordsOfConcat(indent + marker, s);
  }

  lemma ItemSourceWords(b: Block)
    requires b.Item? && WellMade(b)
    ensures WordsOf(Source(b)) == Words(b.indent + b.marker) + WordsOf(Texts(b))
  {
    var texts := ContinuationTexts(b.indent, b.marker, b.rest);
    MarkerWords(b.indent, b.marker, b.first);
    ContinuationsKeepWords(b.indent, b.marker, b.rest);
    WordsOfCons(b.indent + b.marker + b.first, b.rest);
    WordsOfCons(b.first, texts);
    Associate(Words(b.indent + b.marker), Words(b.first), WordsOf(texts));
  }

  lemma ItemLinesWords(indent: string, marker: string, first: string, ss: seq<string>)
    requires Blank(indent) && marker != "" && IsSpace(marker[|marker| - 1])
    ensures WordsOf(ItemLines(indent, marker, first, ss))
         == Words(indent + marker) + if ss == [] then Words(first) else WordsOf(ss)
  {
    if ss == [] {
      MarkerWords(indent, marker, first);
      WordsOfCons(indent + marker + first, []);
    } else {
      var rest := Prefixed(Hanging(indent, marker), ss[1..]);
      MarkerWords(indent, marker, ss[0]);
      BlankPrefixKeepsWords(Hanging(indent, marker), ss[1..]);
      WordsOfCons(indent + marker + ss[0], rest);
      Associate(Words(indent + marker), Words(ss[0]), WordsOf(ss[1..]));
    }
  }

  /** Behind the marker words `p`: the sentences `w`, or the first text `f` when there are none. */
  lemma BehindMarker(p: seq<string>, f: seq<string>, t: seq<string>, w: seq<string>, none: bool, ok: bool,
                     after: seq<string>, before: seq<string>)
    requires (w == f + t <==> ok) && (none ==> w == [] && f + t == [])
    requires after == p + (if none then f else w) && before == p + (f + t)
    ensures after == before <==> ok
  {
    assert after[|p|..] == if none then f else w;
    assert before[|p|..] == f + t;
    assert none ==> f == [];
  }

  /** The words of the texts of an item: the first, then the continuations. */
  lemma ItemTextWords(b: Block)
    requires b.Item?
    ensures WordsOf(Texts(b)) == Words(b.first) + WordsOf(ContinuationTexts(b.indent, b.marker, b.rest))
  {
    WordsOfCons(b.first, ContinuationTexts(b.indent, b.marker, b.rest));
  }

  lemma ItemWords(b: Block, ss: seq<string>, ok: bool)
    requires b.Item? && WellMade(b)
    requires (WordsOf(ss) == WordsOf(Texts(b)) <==> ok) && (ss == [] ==> WordsOf(Texts(b)) == [])
    ensures WordsOf(ItemLines(b.indent, b.marker, b.first, ss)) == WordsOf(Source(b)) <==> ok
  {
    ItemTextWords(b);
    ItemSourceWords(b);
    ItemLinesWords(b.indent, b.marker, b.first, ss);
    BehindMarker(Words(b.indent + b.marker), Words(b.first), WordsOf(ContinuationTexts(b.indent, b.marker, b.rest)),
                 WordsOf(ss), ss == [], ok, WordsOf(ItemLines(b.indent, b.marker, b.first, ss)), WordsOf(Source(b)));
  }

  lemma ItemKeepsWords(table: seq<string>, b: Block)
    requires IsTable(table) && b.Item? && WellMade(b) && NulFree(Joined(b))
    ensures TargetWords(table, b) == SourceWords(b) <==> Unambiguous(table, Joined(b))
  {
    JoinedWords(b);
    Sentences.SentencesKeepWords(table, Joined(b));
    ItemWords(b, Sentences.Sentences(table, Joined(b)), Unambiguous(table, Joined(b)));
  }

  lemma ParagraphKeepsWords(table: seq<string>, b: Block)
    requires IsTable(table) && b.Paragraph? && NulFree(Joined(b))
    ensures TargetWords(table, b) == SourceWords(b) <==> Unambiguous(table, Joined(b))
  {
    JoinedWords(b);
    Sentences.SentencesKeepWords(table, Joined(b));
  }

  lemma QuoteKeepsWords(table: seq<string>, b: Block)
    requires IsTable(table) && b.Quote? && NulFree(Joined(b))
    ensures TargetWords(table, b) == SourceWords(b) <==> Unambiguous(table, Joined(b))
  {
    JoinedWords(b);
    Sentences.SentencesKeepWords(table, Joined(b));
    PrefixedIsRemovable(b.prefix, Sentences.Sentences(table, Joined(b)));
  }

  // ----- Documents without NUL -----

  predicate NulFreeAll(lines: seq<string>) {
    lines == [] || (NulFree(lines[0]) && NulFreeAll(lines[1..]))
  }

  lemma {:induction false} HoldsConcat(a: seq<string>, b: seq<string>, c: char)
    ensures Holds(a + b, c) <==> Holds(a, c) || Holds(b, c)
  {
    if a == [] {
      assert a + b == b;
    } else {
      HoldsConcat(a[1..], b, c);
      assert (a + b)[1..] == a[1..] + b && (a + b)[0] == a[0];
    }
  }

  lemma {:induction false} NulFreeWords(lines: seq<string>)
    ensures NulFreeAll(lines) <==> !Holds(WordsOf(lines), NUL)
  {
    if lines != [] {
      NulFreeWords(lines[1..]);
      WordsHoldTheLetters(lines[0], NUL);
      HoldsConcat(Words(lines[0]), WordsOf(lines[1..]), NUL);
    }
  }

  lemma {:induction false} NulFreeRows(rows: seq<Row>)
    requires NulFreeAll(Spell(rows))
    ensures NulFreeAll(RowTexts(rows))
  {
    if rows != [] {
      NulFreeRows(rows[1..]);
      assert forall k :: 0 <= k < |rows[0].text| ==>
        rows[0].text[k] == (rows[0].prefix + rows[0].text)[|rows[0].prefix| + k];
    }
  }

  lemma JoinedIsNulFree(b: Block)
    requires WellMade(b) && NulFreeAll(Source(b))
    ensures NulFree(Joined(b))
  {
    match b {
      case Verbatim(_) =>
      case Paragraph(_) =>
      case Item(indent, marker, _, _) =>
        NulFreeWords(Source(b));
        ItemSourceWords(b);
        HoldsConcat(Words(indent + marker), WordsOf(Texts(b)), NUL);
        NulFreeWords(Texts(b));
      case Quote(_, rows) => NulFreeRows(rows);
    }
    NulFreeWords(Texts(b));
    JoinedWords(b);
    WordsHoldTheLetters(Joined(b), NUL);
  }

  /** A block keeps its words exactly when it is copied or its text is unambiguous. */
  lemma BlockKeepsWords(table: seq<string>, b: Block)
    requires IsTable(table) && WellMade(b) && NulFreeAll(Source(b))
    ensures TargetWords(table, b) == SourceWords(b) <==> b.Verbatim? || Unambiguous(table, Joined(b))
  {
    JoinedIsNulFree(b);
    match b
    case Verbatim(_) =>
    case Paragraph(_) => ParagraphKeepsWords(table, b);
    case Item(_, _, _, _) => ItemKeepsWords(table, b);
    case Quote(_, _) => QuoteKeepsWords(table, b);
  }

  // ----- The blocks of a document -----

  predicate AllWellMade(bs: seq<Block>) {
    bs == [] || (WellMade(bs[0]) && AllWellMade(bs[1..]))
  }

  lemma {:induction false} WellMadeConcat(a: seq<Block>, b: seq<Block>)
    requires AllWellMade(a) && AllWellMade(b)
    ensures AllWellMade(a + b)
  {
    if a == [] {
      assert a + b == b;
    } else {
      WellMadeConcat(a[1..], b);
      assert (a + b)[1..] == a[1..] + b && (a + b)[0] == a[0];
    }
  }

  lemma {:induction false} QuoteIsWellMade(prefix: string, buf: seq<Row>, rows: seq<Row>)
    ensures AllWellMade(QuoteBlocks(prefix, buf, rows))
    decreases |rows|
  {
    if rows == [] {
    } else if Blank(rows[0].text) {
      var copy, rest := Verbatim(rows[0].prefix + rows[0].text), QuoteBlocks(prefix, [], rows[1..]);
      QuoteIsWellMade(prefix, [], rows[1..]);
      WellMadeConcat([copy], rest);
      WellMadeConcat(Flush(prefix, buf), [copy] + rest);
    } else {
      QuoteIsWellMade(prefix, buf + [rows[0]], rows[1..]);
    }
  }

  lemma TurnIsWellMade(lines: seq<string>, kinds: seq<Kind>, i: nat, fence: Option<char>, t: Turn)
    requires DescribeAll(kinds, lines) && i < |lines| && t == TurnAt(lines, kinds, i, fence)
    ensures AllWellMade(t.blocks)
  {
    var line, kind := lines[i], kinds[i];
    assert Describes(kind, line);
    if fence.None? && !Copied(kinds, i) {
      if kind.quote > 0 {
        QuoteIsWellMade(line[..kind.quote], [], Rows(lines, kinds, i, t.next));
      } else if kind.item.Some? {
        var m := kind.item.value;
        assert line[m.indent..m.text][m.text - m.indent - 1] == line[m.text - 1];
      }
    }
  }

  lemma {:induction false} BlocksAreWellMade(lines: seq<string>, kinds: seq<Kind>, i: nat, fence: Option<char>)
    requires DescribeAll(kinds, lines) && i <= |lines|
    ensures AllWellMade(Blocks(lines, kinds, i, fence))
    decreases |lines| - i
  {
    if i < |lines| {
      var t := TurnAt(lines, kinds, i, fence);
      TurnIsWellMade(lines, kinds, i, fence, t);
      BlocksAreWellMade(lines, kinds, t.next, t.fence);
      WellMadeConcat(t.blocks, Blocks(lines, kinds, t.next, t.fence));
    }
  }

  lemma {:induction false} VerbatimsAreWellMade(lines: seq<string>)
    ensures AllWellMade(Verbatims(lines))
  {
    if lines != [] {
      VerbatimsAreWellMade(lines[1..]);
      WellMadeConcat([Verbatim(lines[0])], Verbatims(lines[1..]));
    }
  }

  lemma {:induction false} NulFreeParts(a: seq<string>, b: seq<string>)
    requires NulFreeAll(a + b)
    ensures NulFreeAll(a) && NulFreeAll(b)
  {
    if a == [] {
      assert a + b == b;
    } else {
      assert (a + b)[1..] == a[1..] + b && (a + b)[0] == a[0];
      NulFreeParts(a[1..], b);
    }
  }

  lemma {:induction false} BlockOf(bs: seq<Block>, k: nat)
    requires k < |bs| && AllWellMade(bs) && NulFreeAll(Sources(bs))
    ensures WellMade(bs[k]) && NulFreeAll(Source(bs[k]))
  {
    NulFreeParts(Source(bs[0]), Sources(bs[1..]));
    if k > 0 { BlockOf(bs[1..], k - 1); }
  }

  lemma DocumentIsWellMade(lines: seq<string>, kinds: seq<Kind>)
    requires DescribeAll(kinds, lines)
    ensures AllWellMade(Document(lines, kinds))
  {
    var f := Front(lines);
    VerbatimsAreWellMade(lines[..f]);
    BlocksAreWellMade(lines, kinds, f, None);
    WellMadeConcat(Verbatims(lines[..f]), Blocks(lines, kinds, f, None));
  }

  /** Each block of a document without NUL keeps its words exactly when it is copied or unambiguous. */
  lemma DocumentKeepsWords(table: seq<string>, lines: seq<string>, kinds: seq<Kind>, k: nat)
    requires IsTable(table) && DescribeAll(kinds, lines) && NulFreeAll(lines) && k < |Document(lines, kinds)|
    ensures var b := Document(lines, kinds)[k];
      TargetWords(table, b) == SourceWords(b) <==> b.Verbatim? || Unambiguous(table, Joined(b))
  {
    DocumentIsWellMade(lines, kinds);
    EveryLineIsInABlock(lines, kinds);
    BlockOf(Document(lines, kinds), k);
    BlockKeepsWords(table, Document(lines, kinds)[k]);
  }
}
