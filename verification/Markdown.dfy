/**
 The Markdown block scanner: which lines it copies, and which it gathers into a paragraph, a list item
 or a quotation.  Everything here holds for any description of the lines.
 */
module Markdown {
  import opened Wrappers
  import opened Sequences
  import opened Text
  import opened MarkdownLines

  /** A quoted line. */
  datatype Row = Row(prefix: string, text: string)

  datatype Block =
    | Verbatim(line: string)
    | Paragraph(lines: seq<string>)
    | Item(indent: string, marker: string, first: string, rest: seq<string>)
    | Quote(prefix: string, rows: seq<Row>)

  function Spell(rows: seq<Row>): (r: seq<string>)
    ensures |r| == |rows|
  {
    if rows == [] then [] else [rows[0].prefix + rows[0].text] + Spell(rows[1..])
  }

  /** The lines a block was made from. */
  function Source(b: Block): seq<string> {
    match b
    case Verbatim(line) => [line]
    case Paragraph(lines) => lines
    case Item(indent, marker, first, rest) => [indent + marker + first] + rest
    case Quote(_, rows) => Spell(rows)
  }

  function Sources(bs: seq<Block>): seq<string> {
    if bs == [] then [] else Source(bs[0]) + Sources(bs[1..])
  }

  // ----- Where blocks end -----

  /** The line ends a paragraph or an item. */
  predicate Interrupts(kind: Kind) {
    kind.blank || kind.fence.Some? || kind.pass || kind.quote > 0 || kind.item.Some?
  }

  function ParagraphEnd(kinds: seq<Kind>, i: nat): (r: nat)
    requires i <= |kinds|
    ensures i <= r <= |kinds| && forall k :: i <= k < r ==> !Interrupts(kinds[k])
    ensures r < |kinds| ==> Interrupts(kinds[r])
    decreases |kinds| - i
  {
    if i < |kinds| && !Interrupts(kinds[i]) then ParagraphEnd(kinds, i + 1) else i
  }

  /** The indentation of the second and later lines of an item. */
  function Hanging(indent: string, marker: string): (r: string)
    ensures Blank(indent) ==> Blank(r)
  {
    indent + seq(|marker|, _ => ' ')
  }

  predicate Continues(indent: string, marker: string, line: string) {
    || Hanging(indent, marker) <= line
    || (" " <= line && RunEnd(line, 0, c => c == ' ') >= |indent| + 1)
  }

  function ItemEnd(lines: seq<string>, kinds: seq<Kind>, i: nat, indent: string, marker: string): (r: nat)
    requires i <= |lines| == |kinds|
    ensures i <= r <= |lines| && forall k :: i <= k < r ==> !Interrupts(kinds[k])
    decreases |lines| - i
  {
    if i < |lines| && !Interrupts(kinds[i]) && Continues(indent, marker, lines[i]) then
      ItemEnd(lines, kinds, i + 1, indent, marker)
    else i
  }

  function QuoteEnd(kinds: seq<Kind>, i: nat): (r: nat)
    requires i <= |kinds|
    ensures i <= r <= |kinds| && forall k :: i <= k < r ==> kinds[k].quote > 0
    ensures r < |kinds| ==> kinds[r].quote == 0
    decreases |kinds| - i
  {
    if i < |kinds| && kinds[i].quote > 0 then QuoteEnd(kinds, i + 1) else i
  }

  // ----- The blocks of a document -----

  function Flush(prefix: string, buf: seq<Row>): seq<Block> {
    if buf == [] then [] else [Quote(prefix, buf)]
  }

  /** A run of quoted lines: those without text separate the blocks and are copied. */
  function QuoteBlocks(prefix: string, buf: seq<Row>, rows: seq<Row>): seq<Block>
    decreases |rows|
  {
    if rows == [] then Flush(prefix, buf)
    else if Blank(rows[0].text) then
      Flush(prefix, buf) + ([Verbatim(rows[0].prefix + rows[0].text)] + QuoteBlocks(prefix, [], rows[1..]))
    else QuoteBlocks(prefix, buf + [rows[0]], rows[1..])
  }

  function RowOf(line: string, kind: Kind): Row
    requires kind.quote <= |line|
  {
    Row(line[..kind.quote], line[kind.quote..])
  }

  function Rows(lines: seq<string>, kinds: seq<Kind>, i: nat, e: nat): (r: seq<Row>)
    requires DescribeAll(kinds, lines) && i <= e <= |lines|
    ensures |r| == e - i
    decreases e - i
  {
    if i == e then [] else [RowOf(lines[i], kinds[i])] + Rows(lines, kinds, i + 1, e)
  }

  predicate Closes(line: string, c: char) {
    [c, c, c] <= StripLeft(line)
  }

  /** The fence that is open behind a line. */
  function NextFence(fence: Option<char>, line: string, kind: Kind): Option<char> {
    match fence
    case None => kind.fence
    case Some(c) => if Closes(line, c) then None else fence
  }

  /** Outside a fence, the line is copied. */
  predicate Copied(kinds: seq<Kind>, i: nat)
    requires i < |kinds|
  {
    || kinds[i].fence.Some? || kinds[i].blank || kinds[i].pass
    || (kinds[i].indented && (i == 0 || kinds[i - 1].blank))
  }

  /** The item block of a line and the lines below it. */
  function ItemBlock(line: string, m: ItemMark, rest: seq<string>): Block
    requires m.indent <= m.text <= |line|
  {
    Item(line[..m.indent], line[m.indent..m.text], line[m.text..], rest)
  }

  /** One turn of the scanner: the blocks it adds, the line it goes on with, and the fence it is then in. */
  datatype Turn = Turn(blocks: seq<Block>, next: nat, fence: Option<char>)

  function TurnAt(lines: seq<string>, kinds: seq<Kind>, i: nat, fence: Option<char>): (r: Turn)
    requires DescribeAll(kinds, lines) && i < |lines|
    ensures i < r.next <= |lines|
  {
    var line, kind := lines[i], kinds[i];
    if fence.Some? || Copied(kinds, i) then Turn([Verbatim(line)], i + 1, NextFence(fence, line, kind))
    else if kind.quote > 0 then
      var e := QuoteEnd(kinds, i);
      Turn(QuoteBlocks(line[..kind.quote], [], Rows(lines, kinds, i, e)), e, None)
    else match kind.item
      case Some(m) =>
        var indent, marker := line[..m.indent], line[m.indent..m.text];
        var e := ItemEnd(lines, kinds, i + 1, indent, marker);
        Turn([ItemBlock(line, m, lines[i + 1..e])], e, None)
      case None =>
        var e := ParagraphEnd(kinds, i + 1);
        Turn([Paragraph(lines[i..e])], e, None)
  }

  function Blocks(lines: seq<string>, kinds: seq<Kind>, i: nat, fence: Option<char>): seq<Block>
    requires DescribeAll(kinds, lines) && i <= |lines|
    decreases |lines| - i
  {
    if i == |lines| then []
    else
      var t := TurnAt(lines, kinds, i, fence);
      t.blocks + Blocks(lines, kinds, t.next, t.fence)
  }

  function FrontEnd(lines: seq<string>, i: nat): (r: nat)
    requires i <= |lines|
    ensures i <= r <= |lines|
    decreases |lines| - i
  {
    if i == |lines| then i else if StripRight(lines[i]) == "---" then i + 1 else FrontEnd(lines, i + 1)
  }

  /** The number of lines of front matter. */
  function Front(lines: seq<string>): (r: nat)
    ensures r <= |lines|
  {
    if lines != [] && StripRight(lines[0]) == "---" then FrontEnd(lines, 1) else 0
  }

  function Verbatims(lines: seq<string>): seq<Block> {
    if lines == [] then [] else [Verbatim(lines[0])] + Verbatims(lines[1..])
  }

  function Document(lines: seq<string>, kinds: seq<Kind>): seq<Block>
    requires DescribeAll(kinds, lines)
  {
    Verbatims(lines[..Front(lines)]) + Blocks(lines, kinds, Front(lines), None)
  }

  // ----- Every line is in one block, in order -----

  lemma {:induction false} SourcesConcat(a: seq<Block>, b: seq<Block>)
    ensures Sources(a + b) == Sources(a) + Sources(b)
  {
    if a == [] {
      assert a + b == b;
    } else {
      SourcesConcat(a[1..], b);
      FirstOfThree(a[0], a[1..], b);
      assert a == [a[0]] + a[1..];
      Associate(Source(a[0]), Sources(a[1..]), Sources(b));
    }
  }

  lemma SourcesOfOne(b: Block)
    ensures Sources([b]) == Source(b)
  {
    assert [b][1..] == [] && Sources([]) == [];
  }

  lemma {:induction false} SourcesOfVerbatims(lines: seq<string>)
    ensures Sources(Verbatims(lines)) == lines
  {
    if lines != [] {
      SourcesOfVerbatims(lines[1..]);
      SourcesConcat([Verbatim(lines[0])], Verbatims(lines[1..]));
      SourcesOfOne(Verbatim(lines[0]));
    }
  }

  lemma {:induction false} SpellConcat(a: seq<Row>, b: seq<Row>)
    ensures Spell(a + b) == Spell(a) + Spell(b)
  {
    if a == [] {
      assert a + b == b;
    } else {
      SpellConcat(a[1..], b);
      FirstOfThree(a[0], a[1..], b);
      assert a == [a[0]] + a[1..];
    }
  }

  lemma RowsFrom(lines: seq<string>, kinds: seq<Kind>, i: nat, e: nat)
    requires DescribeAll(kinds, lines) && i < e <= |lines|
    ensures var rows := Rows(lines, kinds, i, e);
      rows[0] == RowOf(lines[i], kinds[i]) && rows[1..] == Rows(lines, kinds, i + 1, e)
      && rows[0].prefix + rows[0].text == lines[i]
  {
    Rejoin(lines[i], kinds[i].quote, kinds[i].quote);
  }

  lemma {:induction false} SpellRows(lines: seq<string>, kinds: seq<Kind>, i: nat, e: nat)
    requires DescribeAll(kinds, lines) && i <= e <= |lines|
    ensures Spell(Rows(lines, kinds, i, e)) == lines[i..e]
    decreases e - i
  {
    if i < e {
      SpellRows(lines, kinds, i + 1, e);
      RowsFrom(lines, kinds, i, e);
      assert lines[i..e] == [lines[i]] + lines[i + 1..e];
    }
  }

  lemma SourcesOfFlush(prefix: string, buf: seq<Row>)
    ensures Sources(Flush(prefix, buf)) == Spell(buf)
  {
    if buf != [] { SourcesOfOne(Quote(prefix, buf)); }
  }

  lemma {:induction false} SourcesOfQuote(prefix: string, buf: seq<Row>, rows: seq<Row>)
    ensures Sources(QuoteBlocks(prefix, buf, rows)) == Spell(buf) + Spell(rows)
    decreases |rows|
  {
    SourcesOfFlush(prefix, buf);
    if rows == [] {
    } else if Blank(rows[0].text) {
      var copy, rest := Verbatim(rows[0].prefix + rows[0].text), QuoteBlocks(prefix, [], rows[1..]);
      SourcesOfQuote(prefix, [], rows[1..]);
      SourcesOfOne(copy);
      SourcesConcat([copy], rest);
      SourcesConcat(Flush(prefix, buf), [copy] + rest);
      assert [] + Spell(rows[1..]) == Spell(rows[1..]);
    } else {
      SourcesOfQuote(prefix, buf + [rows[0]], rows[1..]);
      SpellConcat(buf, [rows[0]]);
      Associate(Spell(buf), Spell([rows[0]]), Spell(rows[1..]));
    }
  }

  lemma ItemSource(lines: seq<string>, i: nat, m: ItemMark, e: nat)
    requires i < e <= |lines| && m.indent <= m.text <= |lines[i]|
    ensures Source(ItemBlock(lines[i], m, lines[i + 1..e])) == lines[i..e]
  {
    var line := lines[i];
    assert line[..m.indent] + line[m.indent..m.text] + line[m.text..] == line;
  }

  lemma SourcesOfTurn(lines: seq<string>, kinds: seq<Kind>, i: nat, fence: Option<char>, t: Turn)
    requires DescribeAll(kinds, lines) && i < |lines| && t == TurnAt(lines, kinds, i, fence)
    ensures Sources(t.blocks) == lines[i..t.next]
  {
    var kind := kinds[i];
    if fence.Some? || Copied(kinds, i) {
      SourcesOfOne(t.blocks[0]);
    } else if kind.quote > 0 {
      SourcesOfQuote(lines[i][..kind.quote], [], Rows(lines, kinds, i, t.next));
      SpellRows(lines, kinds, i, t.next);
    } else {
      SourcesOfOne(t.blocks[0]);
      match kind.item
      case Some(m) => ItemSource(lines, i, m, t.next);
      case None =>
    }
  }

  /** A turn that copies nothing and quotes nothing makes one block of text. */
  lemma TextTurn(lines: seq<string>, kinds: seq<Kind>, i: nat, t: Turn)
    requires DescribeAll(kinds, lines) && i < |lines| && t == TurnAt(lines, kinds, i, None)
    requires !Copied(kinds, i) && kinds[i].quote == 0
    ensures |t.blocks| == 1 && !t.blocks[0].Verbatim? && Source(t.blocks[0]) == lines[i..t.next]
    ensures t.fence.None? && forall k :: i < k < t.next ==> !Interrupts(kinds[k])
  {
    SourcesOfTurn(lines, kinds, i, None, t);
    SourcesOfOne(t.blocks[0]);
  }

  lemma {:induction false} SourcesOfBlocks(lines: seq<string>, kinds: seq<Kind>, i: nat, fence: Option<char>)
    requires DescribeAll(kinds, lines) && i <= |lines|
    ensures Sources(Blocks(lines, kinds, i, fence)) == lines[i..]
    decreases |lines| - i
  {
    if i < |lines| {
      var t := TurnAt(lines, kinds, i, fence);
      SourcesOfTurn(lines, kinds, i, fence, t);
      SourcesOfBlocks(lines, kinds, t.next, t.fence);
      SourcesConcat(t.blocks, Blocks(lines, kinds, t.next, t.fence));
      Rejoin(lines, i, t.next);
    }
  }

  /** The blocks of a document are its lines, each once and in order. */
  lemma EveryLineIsInABlock(lines: seq<string>, kinds: seq<Kind>)
    requires DescribeAll(kinds, lines)
    ensures Sources(Document(lines, kinds)) == lines
  {
    var f := Front(lines);
    SourcesOfVerbatims(lines[..f]);
    SourcesOfBlocks(lines, kinds, f, None);
    SourcesConcat(Verbatims(lines[..f]), Blocks(lines, kinds, f, None));
    Rejoin(lines, f, f);
  }

  // ----- Which lines are copied -----

  /** The fence that is open in front of line `k`, when none is open in front of line `from`. */
  function FenceAt(lines: seq<string>, kinds: seq<Kind>, from: nat, k: nat): Option<char>
    requires from <= k <= |lines| == |kinds|
  {
    if k == from then None else NextFence(FenceAt(lines, kinds, from, k - 1), lines[k - 1], kinds[k - 1])
  }

  /** Quoted, without text. */
  predicate Hollow(line: string, kind: Kind)
    requires kind.quote <= |line|
  {
    kind.quote > 0 && Blank(line[kind.quote..])
  }

  /** Line by line: front matter, fenced, fence, blank, pass-through, indented code, or quoted without text. */
  predicate Kept(lines: seq<string>, kinds: seq<Kind>, front: nat, k: nat)
    requires DescribeAll(kinds, lines) && k < |lines|
  {
    k < front || FenceAt(lines, kinds, front, k).Some? || Copied(kinds, k) || Hollow(lines[k], kinds[k])
  }

  function Nothing(n: nat): seq<bool> {
    seq(n, _ => false)
  }

  function FlagsOf(b: Block): seq<bool> {
    if b.Verbatim? then [true] else Nothing(|Source(b)|)
  }

  /** For each line of the blocks, whether it is copied. */
  function Flags(bs: seq<Block>): seq<bool> {
    if bs == [] then [] else FlagsOf(bs[0]) + Flags(bs[1..])
  }

  lemma {:induction false} FlagsConcat(a: seq<Block>, b: seq<Block>)
    ensures Flags(a + b) == Flags(a) + Flags(b)
  {
    if a == [] {
      assert a + b == b;
    } else {
      FlagsConcat(a[1..], b);
      FirstOfThree(a[0], a[1..], b);
      assert a == [a[0]] + a[1..];
      Associate(FlagsOf(a[0]), Flags(a[1..]), Flags(b));
    }
  }

  lemma FlagsOfOne(b: Block)
    ensures Flags([b]) == FlagsOf(b)
  {
    assert [b][1..] == [] && Flags([]) == [];
  }

  function Empties(rows: seq<Row>): (r: seq<bool>)
    ensures |r| == |rows|
  {
    if rows == [] then [] else [Blank(rows[0].text)] + Empties(rows[1..])
  }

  lemma FlagsOfFlush(prefix: string, buf: seq<Row>)
    ensures Flags(Flush(prefix, buf)) == Nothing(|buf|)
  {
    if buf != [] { FlagsOfOne(Quote(prefix, buf)); }
  }

  lemma {:induction false} FlagsOfQuote(prefix: string, buf: seq<Row>, rows: seq<Row>)
    ensures Flags(QuoteBlocks(prefix, buf, rows)) == Nothing(|buf|) + Empties(rows)
    decreases |rows|
  {
    FlagsOfFlush(prefix, buf);
    if rows == [] {
    } else if Blank(rows[0].text) {
      var copy, rest := Verbatim(rows[0].prefix + rows[0].text), QuoteBlocks(prefix, [], rows[1..]);
      FlagsOfQuote(prefix, [], rows[1..]);
      assert Nothing(0) + Empties(rows[1..]) == Empties(rows[1..]);
      FlagsOfOne(copy);
      FlagsConcat([copy], rest);
      FlagsConcat(Flush(prefix, buf), [copy] + rest);
    } else {
      FlagsOfQuote(prefix, buf + [rows[0]], rows[1..]);
      assert Nothing(|buf| + 1) == Nothing(|buf|) + [false];
      Associate(Nothing(|buf|), [false], Empties(rows[1..]));
    }
  }

  /** The flags say of each line from `i` to `j` whether it is kept. */
  predicate Marks(flags: seq<bool>, lines: seq<string>, kinds: seq<Kind>, front: nat, i: nat, j: nat)
    requires DescribeAll(kinds, lines) && i <= j <= |lines|
    decreases j - i
  {
    if i == j then flags == []
    else flags != [] && (flags[0] <==> Kept(lines, kinds, front, i)) && Marks(flags[1..], lines, kinds, front, i + 1, j)
  }

  lemma {:induction false} MarksConcat(a: seq<bool>, b: seq<bool>, lines: seq<string>, kinds: seq<Kind>,
                                       front: nat, i: nat, j: nat, k: nat)
    requires DescribeAll(kinds, lines) && i <= j <= k <= |lines|
    requires Marks(a, lines, kinds, front, i, j) && Marks(b, lines, kinds, front, j, k)
    ensures Marks(a + b, lines, kinds, front, i, k)
    decreases j - i
  {
    if i == j {
      assert a + b == b;
    } else {
      MarksConcat(a[1..], b, lines, kinds, front, i + 1, j, k);
      assert (a + b)[1..] == a[1..] + b;
    }
  }

  /** The lines from `i` on are outside a fence, text, and not copied. */
  lemma {:induction false} TextIsNotKept(lines: seq<string>, kinds: seq<Kind>, front: nat, i: nat, e: nat)
    requires DescribeAll(kinds, lines) && front <= i < e <= |lines|
    requires FenceAt(lines, kinds, front, i).None? && !Copied(kinds, i) && kinds[i].quote == 0
    requires forall k :: i < k < e ==> !Interrupts(kinds[k])
    ensures Marks(Nothing(e - i), lines, kinds, front, i, e) && FenceAt(lines, kinds, front, e).None?
    decreases e - i
  {
    assert Nothing(e - i)[1..] == Nothing(e - (i + 1));
    assert FenceAt(lines, kinds, front, i + 1).None?;
    if i + 1 < e {
      assert !Interrupts(kinds[i + 1]);
      TextIsNotKept(lines, kinds, front, i + 1, e);
    } else {
      assert Nothing(0) == [];
    }
  }

  /** Of quoted lines, those without text are copied. */
  lemma {:induction false} HollowIsKept(lines: seq<string>, kinds: seq<Kind>, front: nat, i: nat, e: nat)
    requires DescribeAll(kinds, lines) && front <= i < e <= |lines|
    requires FenceAt(lines, kinds, front, i).None? && !Copied(kinds, i)
    requires forall k :: i <= k < e ==> kinds[k].quote > 0
    ensures Marks(Empties(Rows(lines, kinds, i, e)), lines, kinds, front, i, e)
    ensures FenceAt(lines, kinds, front, e).None?
    decreases e - i
  {
    assert Describes(kinds[i], lines[i]);
    assert FenceAt(lines, kinds, front, i + 1).None?;
    if i + 1 < e {
      assert Describes(kinds[i + 1], lines[i + 1]);
      HollowIsKept(lines, kinds, front, i + 1, e);
    }
    var rows := Rows(lines, kinds, i, e);
    assert rows[1..] == Rows(lines, kinds, i + 1, e);
  }

  lemma FlagsOfText(lines: seq<string>, kinds: seq<Kind>, front: nat, i: nat, e: nat, b: Block)
    requires DescribeAll(kinds, lines) && front <= i < e <= |lines|
    requires FenceAt(lines, kinds, front, i).None? && !Copied(kinds, i) && kinds[i].quote == 0
    requires forall k :: i < k < e ==> !Interrupts(kinds[k])
    requires !b.Verbatim? && Source(b) == lines[i..e]
    ensures Marks(Flags([b]), lines, kinds, front, i, e) && FenceAt(lines, kinds, front, e).None?
  {
    FlagsOfOne(b);
    TextIsNotKept(lines, kinds, front, i, e);
  }

  lemma FlagsOfQuoted(lines: seq<string>, kinds: seq<Kind>, front: nat, i: nat, e: nat, prefix: string)
    requires DescribeAll(kinds, lines) && front <= i < e <= |lines|
    requires FenceAt(lines, kinds, front, i).None? && !Copied(kinds, i)
    requires forall k :: i <= k < e ==> kinds[k].quote > 0
    ensures Marks(Flags(QuoteBlocks(prefix, [], Rows(lines, kinds, i, e))), lines, kinds, front, i, e)
    ensures FenceAt(lines, kinds, front, e).None?
  {
    var rows := Rows(lines, kinds, i, e);
    HollowIsKept(lines, kinds, front, i, e);
    FlagsOfQuote(prefix, [], rows);
    assert Nothing(0) + Empties(rows) == Empties(rows);
  }

  lemma FlagsOfCopy(lines: seq<string>, kinds: seq<Kind>, front: nat, i: nat, line: string)
    requires DescribeAll(kinds, lines) && front <= i < |lines| && Kept(lines, kinds, front, i)
    ensures Marks(Flags([Verbatim(line)]), lines, kinds, front, i, i + 1)
  {
    FlagsOfOne(Verbatim(line));
    assert Marks([true][1..], lines, kinds, front, i + 1, i + 1);
  }

  /** One turn copies exactly the lines that are kept, and ends in the fence the lines are in. */
  lemma FlagsOfTurn(lines: seq<string>, kinds: seq<Kind>, front: nat, i: nat, t: Turn)
    requires DescribeAll(kinds, lines) && front <= i < |lines|
    requires t == TurnAt(lines, kinds, i, FenceAt(lines, kinds, front, i))
    ensures Marks(Flags(t.blocks), lines, kinds, front, i, t.next)
    ensures t.fence == FenceAt(lines, kinds, front, t.next)
  {
    if FenceAt(lines, kinds, front, i).Some? || Copied(kinds, i) {
      FlagsOfCopy(lines, kinds, front, i, lines[i]);
    } else if kinds[i].quote > 0 {
      FlagsOfQuoted(lines, kinds, front, i, t.next, lines[i][..kinds[i].quote]);
    } else {
      TextTurn(lines, kinds, i, t);
      FlagsOfText(lines, kinds, front, i, t.next, t.blocks[0]);
    }
  }

  lemma {:induction false} FlagsOfBlocks(lines: seq<string>, kinds: seq<Kind>, front: nat, i: nat)
    requires DescribeAll(kinds, lines) && front <= i <= |lines|
    ensures Marks(Flags(Blocks(lines, kinds, i, FenceAt(lines, kinds, front, i))), lines, kinds, front, i, |lines|)
    decreases |lines| - i
  {
    if i < |lines| {
      var t := TurnAt(lines, kinds, i, FenceAt(lines, kinds, front, i));
      var rest := Blocks(lines, kinds, t.next, t.fence);
      FlagsOfTurn(lines, kinds, front, i, t);
      FlagsOfBlocks(lines, kinds, front, t.next);
      FlagsConcat(t.blocks, rest);
      MarksConcat(Flags(t.blocks), Flags(rest), lines, kinds, front, i, t.next, |lines|);
    }
  }

  lemma {:induction false} FlagsOfFront(lines: seq<string>, kinds: seq<Kind>, front: nat, i: nat)
    requires DescribeAll(kinds, lines) && i <= front <= |lines|
    ensures Marks(Flags(Verbatims(lines[i..front])), lines, kinds, front, i, front)
    decreases front - i
  {
    if i < front {
      var rest := lines[i + 1..front];
      FlagsOfFront(lines, kinds, front, i + 1);
      assert lines[i..front][1..] == rest;
      FlagsOfOne(Verbatim(lines[i]));
      FlagsConcat([Verbatim(lines[i])], Verbatims(rest));
    }
  }

  lemma {:induction false} MarksAt(flags: seq<bool>, lines: seq<string>, kinds: seq<Kind>,
                                   front: nat, i: nat, j: nat, k: nat)
    requires DescribeAll(kinds, lines) && i <= k < j <= |lines| && Marks(flags, lines, kinds, front, i, j)
    ensures k - i < |flags| && (flags[k - i] <==> Kept(lines, kinds, front, k))
    decreases k - i
  {
    if i < k { MarksAt(flags[1..], lines, kinds, front, i + 1, j, k); }
  }

  lemma FlagsOfDocument(lines: seq<string>, kinds: seq<Kind>)
    requires DescribeAll(kinds, lines)
    ensures Marks(Flags(Document(lines, kinds)), lines, kinds, Front(lines), 0, |lines|)
  {
    var f := Front(lines);
    var front, rest := Verbatims(lines[..f]), Blocks(lines, kinds, f, None);
    FlagsOfFront(lines, kinds, f, 0);
    assert lines[0..f] == lines[..f];
    FlagsOfBlocks(lines, kinds, f, f);
    FlagsConcat(front, rest);
    MarksConcat(Flags(front), Flags(rest), lines, kinds, f, 0, f, |lines|);
  }

  /** A line is copied by the scanner exactly when the line-by-line rule keeps it. */
  lemma CopiedExactly(lines: seq<string>, kinds: seq<Kind>, k: nat)
    requires DescribeAll(kinds, lines) && k < |lines|
    ensures k < |Flags(Document(lines, kinds))|
    ensures Flags(Document(lines, kinds))[k] <==> Kept(lines, kinds, Front(lines), k)
  {
    var f := Front(lines);
    FlagsOfDocument(lines, kinds);
    MarksAt(Flags(Document(lines, kinds)), lines, kinds, f, 0, |lines|, k);
  }
}
