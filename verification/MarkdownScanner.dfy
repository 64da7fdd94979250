/** The scanner itself: one pass over the lines, with a fence marker and a buffer of pending lines. */
module MarkdownScanner {
  import opened Wrappers
  import opened Sequences
  import opened Text
  import opened Abbreviations
  import opened MarkdownLines
  import opened Markdown
  import opened MarkdownWords
  import Sentences

  lemma {:induction false} TargetsConcat(table: seq<string>, a: seq<Block>, b: seq<Block>)
    requires IsTable(table)
    ensures Targets(table, a + b) == Targets(table, a) + Targets(table, b)
  {
    if a == [] {
      assert a + b == b;
    } else {
      TargetsConcat(table, a[1..], b);
      FirstOfThree(a[0], a[1..], b);
      assert a == [a[0]] + a[1..];
      Associate(Target(table, a[0]), Targets(table, a[1..]), Targets(table, b));
    }
  }

  lemma TargetsOfOne(table: seq<string>, b: Block)
    requires IsTable(table)
    ensures Targets(table, [b]) == Target(table, b)
  {
    assert [b][1..] == [] && Targets(table, []) == [];
  }

  lemma {:induction false} TargetsOfVerbatims(table: seq<string>, lines: seq<string>)
    requires IsTable(table)
    ensures Targets(table, Verbatims(lines)) == lines
  {
    if lines != [] {
      TargetsOfVerbatims(table, lines[1..]);
      TargetsConcat(table, [Verbatim(lines[0])], Verbatims(lines[1..]));
      TargetsOfOne(table, Verbatim(lines[0]));
    }
  }

  // ----- Front matter -----

  method ScanFront(lines: seq<string>) returns (out: seq<string>, i: nat)
    ensures i == Front(lines) && out == lines[..i]
  {
    out, i := [], 0;
    if |lines| > 0 && StripRight(lines[0]) == "---" {
      out, i := [lines[0]], 1;
      while i < |lines| && StripRight(lines[i]) != "---"
        invariant 1 <= i <= |lines| && out == lines[..i] && FrontEnd(lines, i) == FrontEnd(lines, 1)
      {
        out := out + [lines[i]];
        i := i + 1;
      }
      if i < |lines| {
        out := out + [lines[i]];
        i := i + 1;
      }
    }
  }

  // ----- Paragraphs -----

  method ScanParagraph(table: seq<string>, lines: seq<string>, kinds: seq<Kind>, start: nat)
      returns (out: seq<string>, i: nat)
    requires IsTable(table) && start < |lines| == |kinds|
    ensures i == ParagraphEnd(kinds, start + 1) && out == Target(table, Paragraph(lines[start..i]))
  {
    var buf := [lines[start]];
    i := start + 1;
    while i < |lines| && !Interrupts(kinds[i])
      invariant start < i <= |lines| && buf == lines[start..i]
      invariant ParagraphEnd(kinds, i) == ParagraphEnd(kinds, start + 1)
    {
      buf := buf + [lines[i]];
      i := i + 1;
    }
    out := Sentences.SplitSentences(table, Join(Stripped(buf)));
  }

  // ----- List items -----

  lemma {:induction false} ContinuationsAppend(indent: string, marker: string, a: seq<string>, line: string)
    ensures ContinuationTexts(indent, marker, a + [line])
         == ContinuationTexts(indent, marker, a) + [ContinuationText(indent, marker, line)]
  {
    if a == [] {
      assert a + [line] == [line] && [line][1..] == [] && ContinuationTexts(indent, marker, []) == [];
    } else {
      ContinuationsAppend(indent, marker, a[1..], line);
      assert (a + [line])[1..] == a[1..] + [line] && (a + [line])[0] == a[0];
    }
  }

  /** The text of a line that continues an item, with the item's indentation or with less. */
  method TakeContinuation(indent: string, marker: string, line: string) returns (text: Option<string>)
    ensures text == if Continues(indent, marker, line) then Some(ContinuationText(indent, marker, line)) else None
  {
    var hanging := Hanging(indent, marker);
    if hanging <= line {
      text := Some(line[|hanging|..]);
    } else if " " <= line && RunEnd(line, 0, c => c == ' ') >= |indent| + 1 {
      text := Some(StripLeft(line));
    } else {
      text := None;
    }
  }

  method GatherItem(lines: seq<string>, kinds: seq<Kind>, start: nat, indent: string, marker: string)
      returns (buf: seq<string>, i: nat)
    requires start <= |lines| == |kinds|
    ensures i == ItemEnd(lines, kinds, start, indent, marker)
    ensures buf == ContinuationTexts(indent, marker, lines[start..i])
  {
    buf, i := [], start;
    while i < |lines|
      invariant start <= i <= |lines|
      invariant ItemEnd(lines, kinds, i, indent, marker) == ItemEnd(lines, kinds, start, indent, marker)
      invariant buf == ContinuationTexts(indent, marker, lines[start..i])
    {
      if Interrupts(kinds[i]) { break; }
      var text := TakeContinuation(indent, marker, lines[i]);
      if text.None? { break; }
      ContinuationsAppend(indent, marker, lines[start..i], lines[i]);
      assert lines[start..i] + [lines[i]] == lines[start..i + 1];
      buf := buf + [text.value];
      i := i + 1;
    }
  }

  method EmitItem(line: string, m: ItemMark, sentences: seq<string>) returns (out: seq<string>)
    requires m.indent <= m.text <= |line|
    ensures out == ItemLines(line[..m.indent], line[m.indent..m.text], line[m.text..], sentences)
  {
    var indent, marker := line[..m.indent], line[m.indent..m.text];
    if sentences != [] {
      out := [indent + marker + sentences[0]] + Prefixed(Hanging(indent, marker), sentences[1..]);
    } else {
      assert line == indent + marker + line[m.text..];
      out := [line];
    }
  }

  lemma ItemTarget(table: seq<string>, b: Block, buf: seq<string>, ss: seq<string>)
    requires IsTable(table) && b.Item? && buf == [b.first] + ContinuationTexts(b.indent, b.marker, b.rest)
    requires ss == Sentences.Sentences(table, Join(Stripped(buf)))
    ensures Target(table, b) == ItemLines(b.indent, b.marker, b.first, ss)
  {
  }

  method ScanItem(table: seq<string>, lines: seq<string>, kinds: seq<Kind>, start: nat, m: ItemMark)
      returns (out: seq<string>, i: nat)
    requires IsTable(table) && start < |lines| == |kinds| && m.indent <= m.text <= |lines[start]|
    ensures i == ItemEnd(lines, kinds, start + 1, lines[start][..m.indent], lines[start][m.indent..m.text])
    ensures out == Target(table, ItemBlock(lines[start], m, lines[start + 1..i]))
  {
    var line := lines[start];
    var indent, marker, first := line[..m.indent], line[m.indent..m.text], line[m.text..];
    var buf;
    buf, i := GatherItem(lines, kinds, start + 1, indent, marker);
    buf := [first] + buf;
    var sentences := Sentences.SplitSentences(table, Join(Stripped(buf)));
    out := EmitItem(line, m, sentences);
    ItemTarget(table, ItemBlock(line, m, lines[start + 1..i]), buf, sentences);
  }

  // ----- Quotations -----

  function StripEach(lines: seq<string>): seq<string> {
    if lines == [] then [] else [Strip(lines[0])] + StripEach(lines[1..])
  }

  predicate NoneBlank(lines: seq<string>) {
    lines == [] || (!Blank(lines[0]) && NoneBlank(lines[1..]))
  }

  lemma {:induction false} StripEachIsStripped(lines: seq<string>)
    requires NoneBlank(lines)
    ensures StripEach(lines) == Stripped(lines)
  {
    if lines != [] {
      StripKeepsWords(lines[0]);
      StripEachIsStripped(lines[1..]);
    }
  }

  lemma {:induction false} OneMoreRow(rows: seq<Row>, row: Row)
    requires NoneBlank(RowTexts(rows))
    ensures RowTexts(rows + [row]) == RowTexts(rows) + [row.text]
    ensures !Blank(row.text) ==> NoneBlank(RowTexts(rows + [row]))
  {
    if rows == [] {
      assert rows + [row] == [row] && [row][1..] == [] && RowTexts([]) == [];
    } else {
      OneMoreRow(rows[1..], row);
      assert (rows + [row])[1..] == rows[1..] + [row] && (rows + [row])[0] == rows[0];
    }
  }

  /** The pending lines of a quotation, as sentences. */
  method FlushQuote(table: seq<string>, prefix: string, buf: seq<string>, ghost held: seq<Row>)
      returns (out: seq<string>)
    requires IsTable(table) && buf == RowTexts(held) && NoneBlank(buf)
    ensures out == Targets(table, Flush(prefix, held))
  {
    out := [];
    if buf != [] {
      StripEachIsStripped(buf);
      TargetsOfOne(table, Quote(prefix, held));
      var sentences := Sentences.SplitSentences(table, Join(StripEach(buf)));
      out := Prefixed(prefix, sentences);
    }
  }

  /** The rest of a run of quoted lines, one line taken off. */
  lemma QuoteStep(table: seq<string>, prefix: string, held: seq<Row>, rows: seq<Row>)
    requires IsTable(table) && rows != []
    ensures Targets(table, QuoteBlocks(prefix, held, rows)) ==
      if Blank(rows[0].text)
      then (Targets(table, Flush(prefix, held)) + [rows[0].prefix + rows[0].text])
           + Targets(table, QuoteBlocks(prefix, [], rows[1..]))
      else Targets(table, QuoteBlocks(prefix, held + [rows[0]], rows[1..]))
  {
    if Blank(rows[0].text) {
      var copy, rest := Verbatim(rows[0].prefix + rows[0].text), QuoteBlocks(prefix, [], rows[1..]);
      TargetsOfOne(table, copy);
      TargetsConcat(table, [copy], rest);
      TargetsConcat(table, Flush(prefix, held), [copy] + rest);
      Associate(Targets(table, Flush(prefix, held)), [rows[0].prefix + rows[0].text], Targets(table, rest));
    }
  }

  /** One quoted line: a line without text is copied behind the pending lines, any other is pending. */
  method ScanQuotedLine(table: seq<string>, prefix: string, buf: seq<string>, line: string, width: nat,
                        ghost held: seq<Row>, ghost rows: seq<Row>)
      returns (more: seq<string>, pending: seq<string>, ghost kept: seq<Row>)
    requires IsTable(table) && buf == RowTexts(held) && NoneBlank(buf)
    requires width <= |line| && rows != [] && rows[0] == Row(line[..width], line[width..])
    ensures pending == RowTexts(kept) && NoneBlank(pending)
    ensures Targets(table, QuoteBlocks(prefix, held, rows))
         == more + Targets(table, QuoteBlocks(prefix, kept, rows[1..]))
  {
    var text := line[width..];
    QuoteStep(table, prefix, held, rows);
    if Blank(text) {
      var flushed := FlushQuote(table, prefix, buf, held);
      Rejoin(line, width, width);
      more, pending, kept := flushed + [line], [], [];
    } else {
      OneMoreRow(held, rows[0]);
      more, pending, kept := [], buf + [text], held + [rows[0]];
    }
  }

  method ScanQuote(table: seq<string>, lines: seq<string>, kinds: seq<Kind>, start: nat)
      returns (out: seq<string>, i: nat)
    requires IsTable(table) && DescribeAll(kinds, lines) && start < |lines| && kinds[start].quote > 0
    ensures i == QuoteEnd(kinds, start)
    ensures out == Targets(table, QuoteBlocks(lines[start][..kinds[start].quote], [], Rows(lines, kinds, start, i)))
  {
    var prefix := lines[start][..kinds[start].quote];
    ghost var e := QuoteEnd(kinds, start);
    ghost var rows, held: seq<Row> := Rows(lines, kinds, start, e), [];
    ghost var all := Targets(table, QuoteBlocks(prefix, held, rows));
    var buf: seq<string>, more: seq<string> := [], [];
    out, i := [], start;
    while i < |lines| && kinds[i].quote > 0
      invariant start <= i <= e && QuoteEnd(kinds, i) == e && rows == Rows(lines, kinds, i, e)
      invariant buf == RowTexts(held) && NoneBlank(buf)
      invariant out + Targets(table, QuoteBlocks(prefix, held, rows)) == all
    {
      RowsFrom(lines, kinds, i, e);
      more, buf, held := ScanQuotedLine(table, prefix, buf, lines[i], kinds[i].quote, held, rows);
      rows := rows[1..];
      Associate(out, more, Targets(table, QuoteBlocks(prefix, held, rows)));
      out := out + more;
      i := i + 1;
    }
    more := FlushQuote(table, prefix, buf, held);
    out := out + more;
  }

  // ----- The whole document -----

  /** The blocks the script's patterns make of the lines. */
  function DocumentOf(digit: char -> bool, lines: seq<string>): seq<Block> {
    KindsDescribe(digit, lines);
    Document(lines, KindsOf(digit, lines))
  }

  /** One turn: what it adds to the output. */
  method ScanTurn(table: seq<string>, lines: seq<string>, kinds: seq<Kind>, start: nat, open: Option<char>)
      returns (out: seq<string>, i: nat, fence: Option<char>)
    requires IsTable(table) && DescribeAll(kinds, lines) && start < |lines|
    ensures var t := TurnAt(lines, kinds, start, open);
      out == Targets(table, t.blocks) && i == t.next && fence == t.fence
  {
    var line, kind := lines[start], kinds[start];
    i, fence := start + 1, open;
    if open.Some? {
      TargetsOfOne(table, Verbatim(line));
      out := [line];
      if Closes(line, open.value) { fence := None; }
    } else if kind.fence.Some? {
      TargetsOfOne(table, Verbatim(line));
      out, fence := [line], kind.fence;
    } else if kind.blank || kind.pass || (kind.indented && (start == 0 || kinds[start - 1].blank)) {
      TargetsOfOne(table, Verbatim(line));
      out := [line];
    } else if kind.quote > 0 {
      out, i := ScanQuote(table, lines, kinds, start);
    } else if kind.item.Some? {
      assert Describes(kind, line);
      out, i := ScanItem(table, lines, kinds, start, kind.item.value);
      TargetsOfOne(table, ItemBlock(line, kind.item.value, lines[start + 1..i]));
    } else {
      out, i := ScanParagraph(table, lines, kinds, start);
      TargetsOfOne(table, Paragraph(lines[start..i]));
    }
  }

  method Process(table: seq<string>, digit: char -> bool, lines: seq<string>) returns (out: seq<string>)
    requires IsTable(table)
    ensures out == Targets(table, DocumentOf(digit, lines))
  {
    var kinds := KindsOf(digit, lines);
    KindsDescribe(digit, lines);
    var i: nat;
    out, i := ScanFront(lines);
    var fence: Option<char> := None;
    ghost var front, rest := Verbatims(lines[..i]), Blocks(lines, kinds, i, None);
    TargetsOfVerbatims(table, lines[..i]);
    TargetsConcat(table, front, rest);
    ghost var all := out + Targets(table, rest);
    while i < |lines|
      invariant i <= |lines| && out + Targets(table, Blocks(lines, kinds, i, fence)) == all
      decreases |lines| - i
    {
      ghost var t := TurnAt(lines, kinds, i, fence);
      var more;
      TargetsConcat(table, t.blocks, Blocks(lines, kinds, t.next, t.fence));
      Associate(out, Targets(table, t.blocks), Targets(table, Blocks(lines, kinds, t.next, t.fence)));
      more, i, fence := ScanTurn(table, lines, kinds, i, fence);
      out := out + more;
    }
  }
}
