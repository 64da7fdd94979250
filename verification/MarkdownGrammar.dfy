/**
 What a Markdown document consists of, said of its lines and the line patterns alone, and the blocks of the
 scanner proved to be that.
 */
module MarkdownGrammar {
  import opened Wrappers
  import opened Sequences
  import opened Text
  import opened MarkdownLines
  import opened MarkdownPatterns
  import opened Markdown
  import MarkdownScanner

  // ----- Lines -----

  ghost predicate Quoted(line: string) {
    exists w: nat :: IsQuotePrefix(line, w)
  }

  ghost predicate Listed(digit: char -> bool, line: string) {
    exists l: nat, e: nat :: IsItem(digit, line, l, e)
  }

  predicate BlankLine(line: string) {
    Spaces(line, 0, |line|)
  }

  ghost predicate Fenced(line: string) {
    IsFence(line, '`') || IsFence(line, '~')
  }

  /** A line that goes on with the prose above it. */
  ghost predicate TextLine(digit: char -> bool, line: string) {
    !BlankLine(line) && !Fenced(line) && !IsPassedThrough(line) && !Quoted(line) && !Listed(digit, line)
  }

  /** Indented code: four spaces or a tab, at the beginning or behind a blank line. */
  predicate CodeLine(lines: seq<string>, i: nat)
    requires i < |lines|
  {
    && (Repeats(lines[i], 0, 4, ' ') || Repeats(lines[i], 0, 1, '\t'))
    && (i == 0 || BlankLine(lines[i - 1]))
  }

  /** Outside a fence: blank, passed through, or indented code. */
  ghost predicate CopiedLine(lines: seq<string>, i: nat)
    requires i < |lines|
  {
    BlankLine(lines[i]) || IsPassedThrough(lines[i]) || CodeLine(lines, i)
  }

  predicate ClosesAt(line: string, a: nat, c: char) {
    Spaces(line, 0, a) && Repeats(line, a, a + 3, c)
  }

  /** A line that closes a fence of `c`: three of them behind whitespace of any length. */
  ghost predicate ClosesFence(line: string, c: char) {
    exists a: nat :: ClosesAt(line, a, c)
  }

  // ----- Blocks -----

  /** `n` lines of prose, all there are. */
  ghost predicate ParagraphRule(digit: char -> bool, lines: seq<string>, i: nat, n: nat)
    requires i < |lines|
  {
    && 0 < n <= |lines| - i && !CodeLine(lines, i)
    && (forall k :: i <= k < i + n ==> TextLine(digit, lines[k]))
    && (i + n < |lines| ==> !TextLine(digit, lines[i + n]))
  }

  /** A line below an item: indented as far as its text, or by spaces further than its marker. */
  predicate Below(item: string, l: nat, e: nat, line: string)
    requires l <= e <= |item|
  {
    || (e <= |line| && (forall k :: 0 <= k < l ==> line[k] == item[k]) && Repeats(line, l, e, ' '))
    || Repeats(line, 0, l + 1, ' ')
  }

  /** An item and `n` lines of prose below it, all there are. */
  ghost predicate ItemRule(digit: char -> bool, lines: seq<string>, i: nat, n: nat, l: nat, e: nat)
    requires i < |lines|
  {
    && n < |lines| - i && l <= e <= |lines[i]|
    && IsItem(digit, lines[i], l, e) && !CopiedLine(lines, i) && !Fenced(lines[i]) && !Quoted(lines[i])
    && (forall k :: i < k <= i + n ==> TextLine(digit, lines[k]) && Below(lines[i], l, e, lines[k]))
    && (i + n + 1 < |lines| ==> !(TextLine(digit, lines[i + n + 1]) && Below(lines[i], l, e, lines[i + n + 1])))
  }

  /** A quoted line is its prefix and its text. */
  ghost predicate RowRule(line: string, row: Row) {
    IsQuotePrefix(line, |row.prefix|) && line == row.prefix + row.text
  }

  ghost predicate Hollowed(line: string) {
    exists w: nat :: IsQuotePrefix(line, w) && w <= |line| && Spaces(line, w, |line|)
  }

  /** Quoted lines with text, all there are. */
  ghost predicate QuoteRule(lines: seq<string>, i: nat, rows: seq<Row>)
    requires i < |lines|
  {
    && 0 < |rows| <= |lines| - i
    && (forall k :: 0 <= k < |rows| ==> RowRule(lines[i + k], rows[k]) && !BlankLine(rows[k].text))
    && (i + |rows| < |lines| ==> !Quoted(lines[i + |rows|]) || Hollowed(lines[i + |rows|]))
  }

  lemma PrefixFits(line: string, w: nat)
    requires IsQuotePrefix(line, w)
    ensures w <= |line|
  {
  }

  /** The prefix of a quoted line. */
  ghost function QuotePrefix(line: string): string
    requires Quoted(line)
  {
    var w: nat :| IsQuotePrefix(line, w);
    PrefixFits(line, w);
    line[..w]
  }

  /**
   Where reading stands: at line `i`, in the fence of `fence`, if one is open, and in a run of quoted lines whose
   first has the prefix `run`, if one is.
   */
  datatype Place = Place(i: nat, fence: Option<char>, run: Option<string>)

  /** The prefix of the run a quoted line is in. */
  ghost function RunPrefix(run: Option<string>, line: string): string
    requires Quoted(line)
  {
    if run.Some? then run.value else QuotePrefix(line)
  }

  /** Behind a copied line; none when the line is not one to copy. */
  ghost function AfterCopy(lines: seq<string>, p: Place): Option<Place>
    requires p.i < |lines|
  {
    var line := lines[p.i];
    match p.fence
    case Some(c) => Some(Place(p.i + 1, if ClosesFence(line, c) then None else p.fence, None))
    case None =>
      if IsFence(line, '`') then Some(Place(p.i + 1, Some('`'), None))
      else if IsFence(line, '~') then Some(Place(p.i + 1, Some('~'), None))
      else if CopiedLine(lines, p.i) then Some(Place(p.i + 1, None, None))
      else if Quoted(line) && Hollowed(line) then Some(Place(p.i + 1, None, Some(RunPrefix(p.run, line))))
      else None
  }

  /** Behind a block at a place; none when the document has no such block there. */
  ghost function After(digit: char -> bool, lines: seq<string>, p: Place, b: Block): Option<Place> {
    if p.i >= |lines| then None
    else if b.Verbatim? then if b.line == lines[p.i] then AfterCopy(lines, p) else None
    else if p.fence.Some? then None
    else
      match b
      case Verbatim(_) => None
      case Paragraph(ls) =>
        if ParagraphRule(digit, lines, p.i, |ls|) && ls == lines[p.i..p.i + |ls|] then Some(Place(p.i + |ls|, None, None)) else None
      case Item(indent, marker, first, rest) =>
        if && ItemRule(digit, lines, p.i, |rest|, |indent|, |indent + marker|)
           && lines[p.i] == indent + marker + first && rest == lines[p.i + 1..p.i + 1 + |rest|]
        then Some(Place(p.i + 1 + |rest|, None, None)) else None
      case Quote(prefix, rows) =>
        if && !CopiedLine(lines, p.i) && QuoteRule(lines, p.i, rows)
           && Quoted(lines[p.i]) && prefix == RunPrefix(p.run, lines[p.i])
        then Some(Place(p.i + |rows|, None, Some(prefix))) else None
  }

  /** The blocks lead from the place to line `n`, one after the other. */
  ghost predicate Leads(after: (Place, Block) -> Option<Place>, n: nat, p: Place, bs: seq<Block>)
    decreases |bs|
  {
    if bs == [] then p.i == n
    else after(p, bs[0]).Some? && Leads(after, n, after(p, bs[0]).value, bs[1..])
  }

  ghost function Grammar(digit: char -> bool, lines: seq<string>): (Place, Block) -> Option<Place> {
    (p, b) => After(digit, lines, p, b)
  }

  // ----- The scanner's view of a line -----

  lemma {:induction false} KindAt(digit: char -> bool, lines: seq<string>, i: nat)
    requires i < |lines|
    ensures KindsOf(digit, lines)[i] == KindOf(digit, lines[i])
  {
    if i > 0 { KindAt(digit, lines[1..], i - 1); }
  }

  lemma QuotedIsQuote(line: string)
    ensures Quoted(line) <==> QuoteWidth(line) > 0
    ensures QuoteWidth(line) > 0 ==> IsQuotePrefix(line, QuoteWidth(line))
  {
    if QuoteWidth(line) > 0 { QuoteIsExact(line, QuoteWidth(line)); }
    if w: nat :| IsQuotePrefix(line, w) { QuoteIsExact(line, w); }
  }

  lemma ListedIsItem(digit: char -> bool, line: string)
    requires AreDigits(digit)
    ensures Listed(digit, line) <==> ItemAt(digit, line).Some?
  {
    if ItemAt(digit, line).Some? {
      var m := ItemAt(digit, line).value;
      ItemIsExact(digit, line, m.indent, m.text);
    }
    if l: nat, e: nat :| IsItem(digit, line, l, e) { ItemIsExact(digit, line, l, e); }
  }

  lemma FencedIsFence(line: string)
    ensures Fence(line) == if IsFence(line, '`') then Some('`') else if IsFence(line, '~') then Some('~') else None
  {
    FenceIsExact(line, '`');
    FenceIsExact(line, '~');
    if Fence(line).Some? { FenceIsExact(line, Fence(line).value); }
  }

  lemma TextIsUninterrupted(digit: char -> bool, line: string)
    requires AreDigits(digit)
    ensures TextLine(digit, line) <==> !Interrupts(KindOf(digit, line))
  {
    FencedIsFence(line);
    PassThroughIsExact(line);
    QuotedIsQuote(line);
    ListedIsItem(digit, line);
  }

  lemma CodeIsIndented(digit: char -> bool, lines: seq<string>, i: nat)
    requires i < |lines|
    ensures CodeLine(lines, i) <==> KindsOf(digit, lines)[i].indented && (i == 0 || KindsOf(digit, lines)[i - 1].blank)
  {
    KindAt(digit, lines, i);
    if i > 0 { KindAt(digit, lines, i - 1); }
    IndentedIsExact(lines[i]);
  }

  lemma CopiedIsCopied(digit: char -> bool, lines: seq<string>, i: nat)
    requires i < |lines|
    ensures Copied(KindsOf(digit, lines), i) <==> CopiedLine(lines, i) || Fenced(lines[i])
  {
    KindAt(digit, lines, i);
    CodeIsIndented(digit, lines, i);
    FencedIsFence(lines[i]);
    PassThroughIsExact(lines[i]);
  }

  lemma ClosesIsExact(line: string, c: char)
    requires !IsSpace(c)
    ensures Closes(line, c) <==> ClosesFence(line, c)
  {
    LeadIsSpace(line);
    ThreeAt(line, Lead(line), c);
    if Closes(line, c) { assert ClosesAt(line, Lead(line), c); }
    if a: nat :| ClosesAt(line, a, c) { LeadIs(line, a); }
  }

  lemma HangingIsBelow(item: string, l: nat, e: nat, line: string)
    requires l <= e <= |item|
    ensures Hanging(item[..l], item[l..e]) <= line
       <==> e <= |line| && (forall k :: 0 <= k < l ==> line[k] == item[k]) && Repeats(line, l, e, ' ')
  {
    var h := Hanging(item[..l], item[l..e]);
    assert |h| == e;
    if e <= |line| {
      assert h <= line <==> forall k :: 0 <= k < e ==> line[k] == h[k];
      assert forall k :: 0 <= k < l ==> h[k] == item[k];
      assert forall k :: l <= k < e ==> h[k] == ' ';
    }
  }

  lemma SpacesIsBelow(n: nat, line: string)
    ensures " " <= line && RunEnd(line, 0, c => c == ' ') >= n + 1 <==> Repeats(line, 0, n + 1, ' ')
  {
    MarkRun(line, 0, ' ');
    if |line| > 0 { assert line[..1] == [line[0]]; }
    if Repeats(line, 0, n + 1, ' ') {
      assert line[0] == ' ';
      var r := RunEnd(line, 0, c => c == ' ');
    }
  }

  lemma ContinuesIsExact(item: string, l: nat, e: nat, line: string)
    requires l <= e <= |item|
    ensures Continues(item[..l], item[l..e], line) <==> Below(item, l, e, line)
  {
    HangingIsBelow(item, l, e, line);
    SpacesIsBelow(l, line);
  }

  // ----- The scanner's blocks -----

  lemma LeadsFirst(after: (Place, Block) -> Option<Place>, n: nat, p: Place, b: Block, q: Place, rest: seq<Block>)
    requires after(p, b) == Some(q) && Leads(after, n, q, rest)
    ensures Leads(after, n, p, [b] + rest)
  {
    assert ([b] + rest)[1..] == rest;
  }

  lemma AfterFenced(digit: char -> bool, lines: seq<string>, i: nat, c: char)
    requires i < |lines| && !IsSpace(c)
    ensures After(digit, lines, Place(i, Some(c), None), Verbatim(lines[i]))
         == Some(Place(i + 1, if Closes(lines[i], c) then None else Some(c), None))
  {
    ClosesIsExact(lines[i], c);
  }

  lemma AfterCopiedLine(lines: seq<string>, i: nat, fence: Option<char>)
    requires i < |lines| && (fence.Some? || CopiedLine(lines, i))
    requires fence == if IsFence(lines[i], '`') then Some('`') else if IsFence(lines[i], '~') then Some('~') else None
    ensures AfterCopy(lines, Place(i, None, None)) == Some(Place(i + 1, fence, None))
  {
  }

  lemma AfterVerbatim(digit: char -> bool, lines: seq<string>, p: Place)
    requires p.i < |lines|
    ensures After(digit, lines, p, Verbatim(lines[p.i])) == AfterCopy(lines, p)
  {
  }

  lemma AfterCopied(digit: char -> bool, lines: seq<string>, i: nat)
    requires i < |lines| && Copied(KindsOf(digit, lines), i)
    ensures After(digit, lines, Place(i, None, None), Verbatim(lines[i])) == Some(Place(i + 1, KindsOf(digit, lines)[i].fence, None))
  {
    CopiedIsCopied(digit, lines, i);
    KindAt(digit, lines, i);
    FencedIsFence(lines[i]);
    AfterCopiedLine(lines, i, Fence(lines[i]));
    AfterVerbatim(digit, lines, Place(i, None, None));
  }

  lemma ParagraphIsRead(digit: char -> bool, lines: seq<string>, i: nat, e: nat)
    requires AreDigits(digit) && i < |lines| && e == ParagraphEnd(KindsOf(digit, lines), i + 1)
    requires !Copied(KindsOf(digit, lines), i) && KindsOf(digit, lines)[i].quote == 0 && KindsOf(digit, lines)[i].item.None?
    ensures ParagraphRule(digit, lines, i, e - i)
  {
    forall k: nat | k < |lines| ensures TextLine(digit, lines[k]) <==> !Interrupts(KindsOf(digit, lines)[k]) {
      KindAt(digit, lines, k);
      TextIsUninterrupted(digit, lines[k]);
    }
    CopiedIsCopied(digit, lines, i);
  }

  lemma AfterParagraph(digit: char -> bool, lines: seq<string>, i: nat, e: nat)
    requires i < e <= |lines| && ParagraphRule(digit, lines, i, e - i)
    ensures After(digit, lines, Place(i, None, None), Paragraph(lines[i..e])) == Some(Place(e, None, None))
  {
  }

  ghost predicate GoesOn(digit: char -> bool, item: string, l: nat, e: nat, line: string)
    requires l <= e <= |item|
  {
    TextLine(digit, line) && Below(item, l, e, line)
  }

  lemma GoesOnIsExact(digit: char -> bool, lines: seq<string>, item: string, l: nat, e: nat, k: nat)
    requires AreDigits(digit) && k < |lines| && l <= e <= |item|
    ensures GoesOn(digit, item, l, e, lines[k]) <==> MovesOn(KindsOf(digit, lines)[k], item[..l], item[l..e], lines[k])
  {
    KindAt(digit, lines, k);
    TextIsUninterrupted(digit, lines[k]);
    ContinuesIsExact(item, l, e, lines[k]);
  }

  predicate MovesOn(kind: Kind, indent: string, marker: string, line: string) {
    !Interrupts(kind) && Continues(indent, marker, line)
  }

  lemma {:induction false} ItemEndIs(lines: seq<string>, kinds: seq<Kind>, k: nat, indent: string, marker: string)
    requires k <= |lines| == |kinds|
    ensures var r := ItemEnd(lines, kinds, k, indent, marker);
            && (forall j :: k <= j < r ==> MovesOn(kinds[j], indent, marker, lines[j]))
            && (r < |lines| ==> !MovesOn(kinds[r], indent, marker, lines[r]))
    decreases |lines| - k
  {
    if k < |lines| && MovesOn(kinds[k], indent, marker, lines[k]) { ItemEndIs(lines, kinds, k + 1, indent, marker); }
  }

  lemma ItemStops(digit: char -> bool, lines: seq<string>, item: string, l: nat, e: nat, k: nat, r: nat)
    requires AreDigits(digit) && k <= |lines| && l <= e <= |item|
    requires r == ItemEnd(lines, KindsOf(digit, lines), k, item[..l], item[l..e])
    ensures k <= r <= |lines| && forall j :: k <= j < r ==> GoesOn(digit, item, l, e, lines[j])
    ensures r < |lines| ==> !GoesOn(digit, item, l, e, lines[r])
  {
    ItemEndIs(lines, KindsOf(digit, lines), k, item[..l], item[l..e]);
    forall j | k <= j < r ensures GoesOn(digit, item, l, e, lines[j]) { GoesOnIsExact(digit, lines, item, l, e, j); }
    if r < |lines| { GoesOnIsExact(digit, lines, item, l, e, r); }
  }

  lemma ItemIsRead(digit: char -> bool, lines: seq<string>, i: nat, m: ItemMark, r: nat)
    requires AreDigits(digit) && i < |lines| && m.indent < m.text <= |lines[i]|
    requires !Copied(KindsOf(digit, lines), i) && KindsOf(digit, lines)[i].quote == 0 && KindsOf(digit, lines)[i].item == Some(m)
    requires r == ItemEnd(lines, KindsOf(digit, lines), i + 1, lines[i][..m.indent], lines[i][m.indent..m.text])
    ensures i < r <= |lines| && ItemRule(digit, lines, i, r - i - 1, m.indent, m.text)
  {
    KindAt(digit, lines, i);
    ItemIsExact(digit, lines[i], m.indent, m.text);
    CopiedIsCopied(digit, lines, i);
    QuotedIsQuote(lines[i]);
    ItemStops(digit, lines, lines[i], m.indent, m.text, i + 1, r);
  }

  lemma ItemParts(line: string, m: ItemMark)
    requires m.indent < m.text <= |line|
    ensures line == line[..m.indent] + line[m.indent..m.text] + line[m.text..]
    ensures |line[..m.indent]| == m.indent && |line[..m.indent] + line[m.indent..m.text]| == m.text
  {
  }

  lemma AfterItem(digit: char -> bool, lines: seq<string>, i: nat, m: ItemMark, r: nat)
    requires i < r <= |lines| && m.indent < m.text <= |lines[i]| && ItemRule(digit, lines, i, r - i - 1, m.indent, m.text)
    ensures After(digit, lines, Place(i, None, None), ItemBlock(lines[i], m, lines[i + 1..r])) == Some(Place(r, None, None))
  {
    ItemParts(lines[i], m);
  }

  // ----- Runs of quoted lines, whatever a row, a line of a run and the place behind a block are -----

  type IsRow = (nat, Row) -> bool
  type Follows = (Place, Block) -> Option<Place>

  /** The rows are those of the lines from `j` on; `filled` when all of them have text. */
  predicate AreRows(isRow: IsRow, j: nat, rows: seq<Row>, filled: bool)
    decreases |rows|
  {
    rows == [] || (isRow(j, rows[0]) && (filled ==> !BlankLine(rows[0].text)) && AreRows(isRow, j + 1, rows[1..], filled))
  }

  /** From `k` to `e` only lines of the run. */
  predicate IsRun(inRun: nat -> bool, k: nat, e: nat)
    requires k <= e
    decreases e - k
  {
    k == e || (inRun(k) && IsRun(inRun, k + 1, e))
  }

  /** Rows with text, up to a line that stops them, are a quotation with the prefix of the run. */
  ghost predicate FlushRule(isRow: IsRow, inRun: nat -> bool, stops: nat -> bool, prefixAt: (Option<string>, nat) -> string, after: Follows) {
    forall b: nat, run: Option<string>, prefix: string, buf: seq<Row> {:trigger after(Place(b, None, run), Quote(prefix, buf))} ::
      buf != [] && AreRows(isRow, b, buf, true) && inRun(b) && prefix == prefixAt(run, b) && stops(b + |buf|) ==>
        after(Place(b, None, run), Quote(prefix, buf)) == Some(Place(b + |buf|, None, Some(prefix)))
  }

  /** A row without text stops the rows before it and is copied. */
  predicate HollowAt(isRow: IsRow, inRun: nat -> bool, stops: nat -> bool, prefixAt: (Option<string>, nat) -> string, after: Follows,
                     j: nat, run: Option<string>, row: Row) {
    isRow(j, row) && BlankLine(row.text) && inRun(j) ==>
      && stops(j)
      && after(Place(j, None, run), Verbatim(row.prefix + row.text)) == Some(Place(j + 1, None, Some(prefixAt(run, j))))
  }

  ghost predicate HollowRule(isRow: IsRow, inRun: nat -> bool, stops: nat -> bool, prefixAt: (Option<string>, nat) -> string, after: Follows) {
    forall j: nat, run: Option<string>, row: Row :: HollowAt(isRow, inRun, stops, prefixAt, after, j, run, row)
  }

  /** The prefix of an open run is its own. */
  ghost predicate OpenRule(prefixAt: (Option<string>, nat) -> string) {
    forall p: string, j: nat {:trigger prefixAt(Some(p), j)} :: prefixAt(Some(p), j) == p
  }

  lemma {:induction false} RowsSnoc(isRow: IsRow, b: nat, buf: seq<Row>, row: Row)
    requires AreRows(isRow, b, buf, true) && isRow(b + |buf|, row) && !BlankLine(row.text)
    ensures AreRows(isRow, b, buf + [row], true)
    decreases |buf|
  {
    if buf != [] {
      RowsSnoc(isRow, b + 1, buf[1..], row);
      assert (buf + [row])[1..] == buf[1..] + [row];
    } else {
      assert (buf + [row])[1..] == [];
    }
  }

  lemma Regrouped(a: seq<Block>, b: Block, c: seq<Block>, rest: seq<Block>)
    ensures (a + ([b] + c)) + rest == a + ([b] + (c + rest))
  {
  }

  lemma HollowBlocks(prefix: string, buf: seq<Row>, rows: seq<Row>, rest: seq<Block>)
    requires rows != [] && BlankLine(rows[0].text)
    ensures QuoteBlocks(prefix, buf, rows) + rest
         == Flush(prefix, buf) + ([Verbatim(rows[0].prefix + rows[0].text)] + (QuoteBlocks(prefix, [], rows[1..]) + rest))
  {
    Regrouped(Flush(prefix, buf), Verbatim(rows[0].prefix + rows[0].text), QuoteBlocks(prefix, [], rows[1..]), rest);
  }

  lemma MoreBlocks(prefix: string, buf: seq<Row>, rows: seq<Row>)
    requires rows != [] && !BlankLine(rows[0].text)
    ensures QuoteBlocks(prefix, buf, rows) == QuoteBlocks(prefix, buf + [rows[0]], rows[1..])
  {
  }

  lemma LeadsFlush(isRow: IsRow, inRun: nat -> bool, stops: nat -> bool, prefixAt: (Option<string>, nat) -> string, after: Follows,
                   n: nat, b: nat, run: Option<string>, prefix: string, buf: seq<Row>, rest: seq<Block>)
    requires FlushRule(isRow, inRun, stops, prefixAt, after) && AreRows(isRow, b, buf, true) && stops(b + |buf|)
    requires buf != [] ==> inRun(b) && prefix == prefixAt(run, b)
    requires Leads(after, n, Place(b + |buf|, None, if buf == [] then run else Some(prefix)), rest)
    ensures Leads(after, n, Place(b, None, run), Flush(prefix, buf) + rest)
  {
    if buf == [] {
      assert Flush(prefix, buf) + rest == rest;
    } else {
      LeadsFirst(after, n, Place(b, None, run), Quote(prefix, buf), Place(b + |buf|, None, Some(prefix)), rest);
    }
  }

  lemma LeadsHollow(isRow: IsRow, inRun: nat -> bool, stops: nat -> bool, prefixAt: (Option<string>, nat) -> string, after: Follows,
                    n: nat, j: nat, run: Option<string>, prefix: string, row: Row, rest: seq<Block>)
    requires HollowRule(isRow, inRun, stops, prefixAt, after) && isRow(j, row) && BlankLine(row.text) && inRun(j)
    requires prefix == prefixAt(run, j) && Leads(after, n, Place(j + 1, None, Some(prefix)), rest)
    ensures stops(j) && Leads(after, n, Place(j, None, run), [Verbatim(row.prefix + row.text)] + rest)
  {
    assert HollowAt(isRow, inRun, stops, prefixAt, after, j, run, row);
    LeadsFirst(after, n, Place(j, None, run), Verbatim(row.prefix + row.text), Place(j + 1, None, Some(prefix)), rest);
  }

  /** The blocks of the rest of a run, with `buf` gathered from line `b` on and `rows` to come. */
  lemma {:induction false} LeadsRows(isRow: IsRow, inRun: nat -> bool, stops: nat -> bool, prefixAt: (Option<string>, nat) -> string,
                                     after: Follows, n: nat, b: nat, j: nat, e: nat, run: Option<string>, prefix: string,
                                     buf: seq<Row>, rows: seq<Row>, rest: seq<Block>)
    requires FlushRule(isRow, inRun, stops, prefixAt, after) && HollowRule(isRow, inRun, stops, prefixAt, after) && OpenRule(prefixAt)
    requires j == b + |buf| && e == j + |rows| && AreRows(isRow, b, buf, true) && AreRows(isRow, j, rows, false)
    requires IsRun(inRun, j, e) && stops(e) && (buf != [] ==> inRun(b))
    requires prefix == prefixAt(run, b) && (buf + rows == [] ==> run == Some(prefix))
    requires Leads(after, n, Place(e, None, Some(prefix)), rest)
    ensures Leads(after, n, Place(b, None, run), QuoteBlocks(prefix, buf, rows) + rest)
    decreases |rows|
  {
    if rows == [] {
      LeadsFlush(isRow, inRun, stops, prefixAt, after, n, b, run, prefix, buf, rest);
    } else if BlankLine(rows[0].text) {
      LeadsRows(isRow, inRun, stops, prefixAt, after, n, j + 1, j + 1, e, Some(prefix), prefix, [], rows[1..], rest);
      var more := QuoteBlocks(prefix, [], rows[1..]) + rest;
      LeadsHollow(isRow, inRun, stops, prefixAt, after, n, j, if buf == [] then run else Some(prefix), prefix, rows[0], more);
      LeadsFlush(isRow, inRun, stops, prefixAt, after, n, b, run, prefix, buf, [Verbatim(rows[0].prefix + rows[0].text)] + more);
      HollowBlocks(prefix, buf, rows, rest);
    } else {
      RowsSnoc(isRow, b, buf, rows[0]);
      MoreBlocks(prefix, buf, rows);
      LeadsRows(isRow, inRun, stops, prefixAt, after, n, b, j + 1, e, run, prefix, buf + [rows[0]], rows[1..], rest);
    }
  }

  // ----- Runs of quoted lines in a document -----

  ghost predicate RunLine(lines: seq<string>, k: nat)
    requires k < |lines|
  {
    Quoted(lines[k]) && !CopiedLine(lines, k) && !Fenced(lines[k])
  }

  ghost function RowsIn(lines: seq<string>): IsRow {
    (k: nat, row: Row) => k < |lines| && RowRule(lines[k], row)
  }

  ghost function RunIn(lines: seq<string>): nat -> bool {
    (k: nat) => k < |lines| && RunLine(lines, k)
  }

  ghost function StopsIn(lines: seq<string>): nat -> bool {
    (k: nat) => k < |lines| ==> !Quoted(lines[k]) || Hollowed(lines[k])
  }

  ghost function PrefixIn(lines: seq<string>): (Option<string>, nat) -> string {
    (run: Option<string>, k: nat) => if run.Some? then run.value else if k < |lines| && Quoted(lines[k]) then QuotePrefix(lines[k]) else ""
  }

  lemma {:induction false} RowsAt(lines: seq<string>, j: nat, rows: seq<Row>, k: nat)
    requires AreRows(RowsIn(lines), j, rows, true) && k < |rows|
    ensures j + k < |lines| && RowRule(lines[j + k], rows[k]) && !BlankLine(rows[k].text)
    decreases k
  {
    if k > 0 {
      RowsAt(lines, j + 1, rows[1..], k - 1);
      assert rows[1..][k - 1] == rows[k];
    }
  }

  /** Which run is open does not matter to a line that is not quoted. */
  lemma RunIsIgnored(digit: char -> bool, lines: seq<string>, e: nat, run: Option<string>, b: Block)
    requires e < |lines| ==> !Quoted(lines[e])
    ensures After(digit, lines, Place(e, None, run), b) == After(digit, lines, Place(e, None, None), b)
  {
  }

  lemma RunIsOver(digit: char -> bool, lines: seq<string>, e: nat, run: Option<string>, bs: seq<Block>)
    requires Leads(Grammar(digit, lines), |lines|, Place(e, None, None), bs) && (e < |lines| ==> !Quoted(lines[e]))
    ensures Leads(Grammar(digit, lines), |lines|, Place(e, None, run), bs)
  {
    if bs != [] { RunIsIgnored(digit, lines, e, run, bs[0]); }
  }

  lemma HollowRow(line: string, row: Row)
    requires RowRule(line, row)
    ensures BlankLine(row.text) ==> Hollowed(line)
  {
    var w := |row.prefix|;
    assert forall k :: w <= k < |line| ==> line[k] == row.text[k - w];
    if BlankLine(row.text) { assert IsQuotePrefix(line, w) && Spaces(line, w, |line|); }
  }

  lemma RowsFollowRule(lines: seq<string>, b: nat, buf: seq<Row>)
    requires buf != [] && AreRows(RowsIn(lines), b, buf, true) && StopsIn(lines)(b + |buf|)
    ensures b < |lines| && QuoteRule(lines, b, buf)
  {
    RowsAt(lines, b, buf, |buf| - 1);
    forall k | 0 <= k < |buf| ensures RowRule(lines[b + k], buf[k]) && !BlankLine(buf[k].text) { RowsAt(lines, b, buf, k); }
  }

  lemma AfterFlush(digit: char -> bool, lines: seq<string>, b: nat, run: Option<string>, prefix: string, buf: seq<Row>)
    requires b < |lines| && QuoteRule(lines, b, buf) && !CopiedLine(lines, b)
    requires Quoted(lines[b]) && prefix == RunPrefix(run, lines[b])
    ensures After(digit, lines, Place(b, None, run), Quote(prefix, buf)) == Some(Place(b + |buf|, None, Some(prefix)))
  {
  }

  lemma AfterHollow(digit: char -> bool, lines: seq<string>, j: nat, run: Option<string>, row: Row)
    requires j < |lines| && RowRule(lines[j], row) && BlankLine(row.text) && !CopiedLine(lines, j) && !Fenced(lines[j]) && Quoted(lines[j])
    ensures After(digit, lines, Place(j, None, run), Verbatim(row.prefix + row.text))
         == Some(Place(j + 1, None, Some(RunPrefix(run, lines[j]))))
  {
    HollowRow(lines[j], row);
  }

  lemma FlushFollows(digit: char -> bool, lines: seq<string>)
    ensures FlushRule(RowsIn(lines), RunIn(lines), StopsIn(lines), PrefixIn(lines), Grammar(digit, lines))
  {
    forall b: nat, run: Option<string>, prefix: string, buf: seq<Row>
      | buf != [] && AreRows(RowsIn(lines), b, buf, true) && RunIn(lines)(b) && prefix == PrefixIn(lines)(run, b) && StopsIn(lines)(b + |buf|)
      ensures Grammar(digit, lines)(Place(b, None, run), Quote(prefix, buf)) == Some(Place(b + |buf|, None, Some(prefix)))
    {
      RowsFollowRule(lines, b, buf);
      AfterFlush(digit, lines, b, run, prefix, buf);
    }
  }

  lemma HollowFollowsAt(digit: char -> bool, lines: seq<string>, j: nat, run: Option<string>, row: Row)
    ensures HollowAt(RowsIn(lines), RunIn(lines), StopsIn(lines), PrefixIn(lines), Grammar(digit, lines), j, run, row)
  {
    if j < |lines| && RowRule(lines[j], row) && BlankLine(row.text) && RunLine(lines, j) {
      HollowRow(lines[j], row);
      AfterHollow(digit, lines, j, run, row);
    }
  }

  lemma HollowFollows(digit: char -> bool, lines: seq<string>)
    ensures HollowRule(RowsIn(lines), RunIn(lines), StopsIn(lines), PrefixIn(lines), Grammar(digit, lines))
  {
    forall j: nat, run: Option<string>, row: Row
      ensures HollowAt(RowsIn(lines), RunIn(lines), StopsIn(lines), PrefixIn(lines), Grammar(digit, lines), j, run, row)
    {
      HollowFollowsAt(digit, lines, j, run, row);
    }
  }

  lemma {:induction false} RowsAreRows(digit: char -> bool, lines: seq<string>, i: nat, e: nat)
    requires DescribeAll(KindsOf(digit, lines), lines) && i <= e <= |lines| && forall k :: i <= k < e ==> KindsOf(digit, lines)[k].quote > 0
    ensures AreRows(RowsIn(lines), i, Rows(lines, KindsOf(digit, lines), i, e), false)
    decreases e - i
  {
    if i < e {
      RowsAreRows(digit, lines, i + 1, e);
      RowsFrom(lines, KindsOf(digit, lines), i, e);
      RowIsRow(digit, lines, i);
    }
  }

  lemma RowOfLine(line: string, w: nat)
    requires 0 < w <= |line| && IsQuotePrefix(line, w)
    ensures RowRule(line, Row(line[..w], line[w..]))
  {
    assert line == line[..w] + line[w..];
  }

  lemma RowIsRow(digit: char -> bool, lines: seq<string>, i: nat)
    requires DescribeAll(KindsOf(digit, lines), lines) && i < |lines| && KindsOf(digit, lines)[i].quote > 0
    ensures RowRule(lines[i], RowOf(lines[i], KindsOf(digit, lines)[i]))
  {
    KindAt(digit, lines, i);
    QuotedIsQuote(lines[i]);
    RowOfLine(lines[i], KindsOf(digit, lines)[i].quote);
  }

  lemma {:induction false} RunIsRun(digit: char -> bool, lines: seq<string>, i: nat, e: nat)
    requires i < |lines| && RunLine(lines, i) && KindsOf(digit, lines)[i].quote > 0
    requires e == QuoteEnd(KindsOf(digit, lines), i)
    ensures IsRun(RunIn(lines), i, e) && StopsIn(lines)(e)
    decreases |lines| - i
  {
    QuotedInRun(digit, lines, i);
    if i + 1 < |lines| {
      KindAt(digit, lines, i + 1);
      QuotedIsQuote(lines[i + 1]);
      if KindsOf(digit, lines)[i + 1].quote > 0 {
        QuotedInRun(digit, lines, i + 1);
        RunIsRun(digit, lines, i + 1, e);
      }
    }
  }

  lemma QuotedInRun(digit: char -> bool, lines: seq<string>, k: nat)
    requires k < |lines| && KindsOf(digit, lines)[k].quote > 0
    ensures Quoted(lines[k]) && !BlankLine(lines[k]) && !IsPassedThrough(lines[k]) && !Fenced(lines[k])
  {
    KindAt(digit, lines, k);
    QuotedIsQuote(lines[k]);
    QuotedIsNothingElse(lines[k]);
    PassThroughIsExact(lines[k]);
    FencedIsFence(lines[k]);
  }

  lemma PrefixIsPrefix(line: string)
    requires QuoteWidth(line) > 0
    ensures Quoted(line) && QuotePrefix(line) == line[..QuoteWidth(line)]
  {
    QuotedIsQuote(line);
    forall w: nat | IsQuotePrefix(line, w) ensures w == QuoteWidth(line) { QuoteIsExact(line, w); }
  }

  lemma LeadsRun(digit: char -> bool, lines: seq<string>, i: nat, e: nat, prefix: string, rows: seq<Row>, rest: seq<Block>)
    requires i < e <= |lines| && e == i + |rows| && AreRows(RowsIn(lines), i, rows, false)
    requires IsRun(RunIn(lines), i, e) && StopsIn(lines)(e) && prefix == PrefixIn(lines)(None, i)
    requires Leads(Grammar(digit, lines), |lines|, Place(e, None, Some(prefix)), rest)
    ensures Leads(Grammar(digit, lines), |lines|, Place(i, None, None), QuoteBlocks(prefix, [], rows) + rest)
  {
    FlushFollows(digit, lines);
    HollowFollows(digit, lines);
    LeadsRows(RowsIn(lines), RunIn(lines), StopsIn(lines), PrefixIn(lines), Grammar(digit, lines), |lines|, i, i, e, None, prefix, [], rows, rest);
  }

  lemma LeadsQuote(digit: char -> bool, lines: seq<string>, kinds: seq<Kind>, i: nat, e: nat, rest: seq<Block>)
    requires kinds == KindsOf(digit, lines) && DescribeAll(kinds, lines)
    requires i < |lines| && !Copied(kinds, i) && kinds[i].quote > 0
    requires e == QuoteEnd(kinds, i) && Leads(Grammar(digit, lines), |lines|, Place(e, None, None), rest)
    ensures Leads(Grammar(digit, lines), |lines|, Place(i, None, None),
                  QuoteBlocks(lines[i][..kinds[i].quote], [], Rows(lines, kinds, i, e)) + rest)
  {
    var prefix := lines[i][..kinds[i].quote];
    QuotedInRun(digit, lines, i);
    CopiedIsCopied(digit, lines, i);
    RunIsRun(digit, lines, i, e);
    RunStopsAt(digit, lines, i, e);
    RowsAreRows(digit, lines, i, e);
    KindAt(digit, lines, i);
    PrefixIsPrefix(lines[i]);
    RunIsOver(digit, lines, e, Some(prefix), rest);
    LeadsRun(digit, lines, i, e, prefix, Rows(lines, kinds, i, e), rest);
  }

  lemma RunStopsAt(digit: char -> bool, lines: seq<string>, i: nat, e: nat)
    requires i <= |lines| && e == QuoteEnd(KindsOf(digit, lines), i)
    ensures e < |lines| ==> !Quoted(lines[e])
  {
    if e < |lines| {
      KindAt(digit, lines, e);
      QuotedIsQuote(lines[e]);
    }
  }

  // ----- The whole document -----

  lemma FencesAreNoSpace(line: string)
    ensures Fence(line).Some? ==> !IsSpace(Fence(line).value)
  {
  }

  /** A line that begins a paragraph or an item. */
  lemma AfterText(digit: char -> bool, lines: seq<string>, kinds: seq<Kind>, i: nat, t: Turn)
    requires AreDigits(digit) && kinds == KindsOf(digit, lines) && DescribeAll(kinds, lines) && i < |lines|
    requires !Copied(kinds, i) && kinds[i].quote == 0 && t == TurnAt(lines, kinds, i, None)
    ensures |t.blocks| == 1 && After(digit, lines, Place(i, None, None), t.blocks[0]) == Some(Place(t.next, t.fence, None))
  {
    if kinds[i].item.Some? {
      ItemIsRead(digit, lines, i, kinds[i].item.value, t.next);
      AfterItem(digit, lines, i, kinds[i].item.value, t.next);
    } else {
      ParagraphIsRead(digit, lines, i, t.next);
      AfterParagraph(digit, lines, i, t.next);
    }
  }

  /** A line that is copied. */
  lemma AfterCopyTurn(digit: char -> bool, lines: seq<string>, kinds: seq<Kind>, i: nat, fence: Option<char>)
    requires kinds == KindsOf(digit, lines) && i < |lines| && (fence.Some? ==> !IsSpace(fence.value)) && (fence.Some? || Copied(kinds, i))
    ensures After(digit, lines, Place(i, fence, None), Verbatim(lines[i])) == Some(Place(i + 1, NextFence(fence, lines[i], kinds[i]), None))
  {
    if fence.Some? { AfterFenced(digit, lines, i, fence.value); } else { AfterCopied(digit, lines, i); }
  }

  lemma CopyTurn(lines: seq<string>, kinds: seq<Kind>, i: nat, fence: Option<char>)
    requires DescribeAll(kinds, lines) && i < |lines| && (fence.Some? || Copied(kinds, i))
    ensures TurnAt(lines, kinds, i, fence) == Turn([Verbatim(lines[i])], i + 1, NextFence(fence, lines[i], kinds[i]))
  {
  }

  /** One turn of the scanner. */
  lemma LeadsTurn(digit: char -> bool, lines: seq<string>, kinds: seq<Kind>, i: nat, fence: Option<char>, t: Turn, rest: seq<Block>)
    requires AreDigits(digit) && kinds == KindsOf(digit, lines) && DescribeAll(kinds, lines) && i < |lines|
    requires (fence.Some? ==> !IsSpace(fence.value)) && t == TurnAt(lines, kinds, i, fence)
    requires Leads(Grammar(digit, lines), |lines|, Place(t.next, t.fence, None), rest)
    ensures Leads(Grammar(digit, lines), |lines|, Place(i, fence, None), t.blocks + rest)
  {
    if fence.None? && !Copied(kinds, i) && kinds[i].quote > 0 {
      LeadsQuote(digit, lines, kinds, i, t.next, rest);
    } else {
      AfterOne(digit, lines, kinds, i, fence, t);
      LeadsOne(Grammar(digit, lines), |lines|, Place(i, fence, None), t.blocks, Place(t.next, t.fence, None), rest);
    }
  }

  lemma AfterOne(digit: char -> bool, lines: seq<string>, kinds: seq<Kind>, i: nat, fence: Option<char>, t: Turn)
    requires AreDigits(digit) && kinds == KindsOf(digit, lines) && DescribeAll(kinds, lines) && i < |lines|
    requires (fence.Some? ==> !IsSpace(fence.value)) && t == TurnAt(lines, kinds, i, fence)
    requires fence.Some? || Copied(kinds, i) || kinds[i].quote == 0
    ensures |t.blocks| == 1 && After(digit, lines, Place(i, fence, None), t.blocks[0]) == Some(Place(t.next, t.fence, None))
  {
    if fence.Some? || Copied(kinds, i) {
      CopyTurn(lines, kinds, i, fence);
      AfterCopyTurn(digit, lines, kinds, i, fence);
    } else {
      AfterText(digit, lines, kinds, i, t);
    }
  }

  lemma LeadsOne(after: (Place, Block) -> Option<Place>, n: nat, p: Place, bs: seq<Block>, q: Place, rest: seq<Block>)
    requires |bs| == 1 && after(p, bs[0]) == Some(q) && Leads(after, n, q, rest)
    ensures Leads(after, n, p, bs + rest)
  {
    assert (bs + rest)[1..] == rest;
  }

  lemma TurnFence(digit: char -> bool, lines: seq<string>, kinds: seq<Kind>, i: nat, fence: Option<char>)
    requires kinds == KindsOf(digit, lines) && DescribeAll(kinds, lines) && i < |lines| && (fence.Some? ==> !IsSpace(fence.value))
    ensures var t := TurnAt(lines, kinds, i, fence); t.fence.Some? ==> !IsSpace(t.fence.value)
  {
    KindAt(digit, lines, i);
    FencesAreNoSpace(lines[i]);
  }

  lemma {:induction false} LeadsBlocks(digit: char -> bool, lines: seq<string>, kinds: seq<Kind>, i: nat, fence: Option<char>)
    requires AreDigits(digit) && kinds == KindsOf(digit, lines) && DescribeAll(kinds, lines) && i <= |lines|
    requires fence.Some? ==> !IsSpace(fence.value)
    ensures Leads(Grammar(digit, lines), |lines|, Place(i, fence, None), Blocks(lines, kinds, i, fence))
    decreases |lines| - i
  {
    if i < |lines| {
      var t := TurnAt(lines, kinds, i, fence);
      TurnFence(digit, lines, kinds, i, fence);
      LeadsBlocks(digit, lines, kinds, t.next, t.fence);
      LeadsTurn(digit, lines, kinds, i, fence, t, Blocks(lines, kinds, t.next, t.fence));
    }
  }

  /** Three hyphens, and nothing but whitespace behind them. */
  predicate Dashes(line: string) {
    Repeats(line, 0, 3, '-') && Spaces(line, 3, |line|)
  }

  /** Front matter of `f` lines: from a line of dashes at the top to the next one, or to the end when there is none. */
  predicate FrontRule(lines: seq<string>, f: nat) {
    if lines == [] || !Dashes(lines[0]) then f == 0
    else
      && 0 < f <= |lines| && (forall k :: 0 < k < f - 1 ==> !Dashes(lines[k]))
      && if f > 1 && Dashes(lines[f - 1]) then true else f == |lines|
  }

  lemma DashesAreExact(line: string)
    ensures StripRight(line) == "---" <==> Dashes(line)
  {
    StripRightIs(line, 3);
    if StripRight(line) == "---" {
      var r := StripRight(line);
      StripRightCuts(line);
      assert r == line[..3];
      assert line[0] == r[0] && line[1] == r[1] && line[2] == r[2];
    }
    if Dashes(line) { assert line[..3] == "---"; }
  }

  /** What is stripped at the end is whitespace. */
  lemma {:induction false} StripRightCuts(s: string)
    ensures Spaces(s, |StripRight(s)|, |s|)
  {
    if s != "" && IsSpace(s[|s| - 1]) { StripRightCuts(s[..|s| - 1]); }
  }

  lemma {:induction false} StripRightIs(s: string, n: nat)
    requires 0 < n
    ensures Spaces(s, n, |s|) && !IsSpace(s[n - 1]) ==> StripRight(s) == s[..n]
  {
    if |s| > n && IsSpace(s[|s| - 1]) {
      StripRightIs(s[..|s| - 1], n);
    }
  }

  lemma {:induction false} FrontEndIs(lines: seq<string>, i: nat)
    requires i <= |lines|
    ensures var f := FrontEnd(lines, i);
            && (forall k :: i <= k < f - 1 ==> !Dashes(lines[k]))
            && ((f > i && Dashes(lines[f - 1])) || (f == |lines| && forall k :: i <= k < f ==> !Dashes(lines[k])))
    decreases |lines| - i
  {
    if i < |lines| {
      DashesAreExact(lines[i]);
      if !Dashes(lines[i]) { FrontEndIs(lines, i + 1); }
    }
  }

  lemma FrontIsExact(lines: seq<string>)
    ensures FrontRule(lines, Front(lines))
  {
    if lines != [] {
      DashesAreExact(lines[0]);
      if Dashes(lines[0]) { FrontEndIs(lines, 1); }
    }
  }

  // ----- Nothing else is one -----

  lemma SameWidth(line: string, v: nat, w: nat)
    requires IsQuotePrefix(line, v) && IsQuotePrefix(line, w)
    ensures v == w
  {
    if v > 0 { QuoteIsExact(line, v); }
    if w > 0 { QuoteIsExact(line, w); }
    PrefixIsLong(line, v);
    PrefixIsLong(line, w);
  }

  lemma PrefixIsLong(line: string, w: nat)
    requires IsQuotePrefix(line, w)
    ensures w > 0
  {
  }

  lemma SameRow(line: string, a: Row, b: Row)
    requires RowRule(line, a) && RowRule(line, b)
    ensures a == b
  {
    SameWidth(line, |a.prefix|, |b.prefix|);
    var w := |a.prefix|;
    assert a.prefix == line[..w] && b.prefix == line[..w] && a.text == line[w..] && b.text == line[w..];
  }

  lemma FilledIsNotHollow(line: string, row: Row)
    requires RowRule(line, row) && !BlankLine(row.text)
    ensures !Hollowed(line)
  {
    if w: nat :| IsQuotePrefix(line, w) && w <= |line| && Spaces(line, w, |line|) {
      SameWidth(line, w, |row.prefix|);
      assert forall k :: 0 <= k < |row.text| ==> row.text[k] == line[w + k];
    }
  }

  lemma FewerRows(lines: seq<string>, i: nat, a: seq<Row>, b: seq<Row>)
    requires i < |lines| && QuoteRule(lines, i, a) && QuoteRule(lines, i, b)
    ensures |a| >= |b|
  {
    if |a| < |b| {
      var k := |a|;
      assert RowRule(lines[i + k], b[k]);
      FilledIsNotHollow(lines[i + k], b[k]);
    }
  }

  lemma SameRows(lines: seq<string>, i: nat, a: seq<Row>, b: seq<Row>)
    requires i < |lines| && QuoteRule(lines, i, a) && QuoteRule(lines, i, b)
    ensures a == b
  {
    FewerRows(lines, i, a, b);
    FewerRows(lines, i, b, a);
    forall k | 0 <= k < |a| ensures a[k] == b[k] { SameRow(lines[i + k], a[k], b[k]); }
  }

  lemma SameParagraph(digit: char -> bool, lines: seq<string>, i: nat, m: nat, n: nat)
    requires i < |lines| && ParagraphRule(digit, lines, i, m) && ParagraphRule(digit, lines, i, n)
    ensures m == n
  {
  }

  lemma SameItem(digit: char -> bool, lines: seq<string>, i: nat, m: nat, n: nat, l: nat, e: nat, l': nat, e': nat)
    requires AreDigits(digit) && i < |lines| && ItemRule(digit, lines, i, m, l, e) && ItemRule(digit, lines, i, n, l', e')
    ensures m == n && l == l' && e == e'
  {
    ItemIsExact(digit, lines[i], l, e);
    ItemIsExact(digit, lines[i], l', e');
  }

  lemma QuotedIsNotFenced(line: string)
    requires Quoted(line)
    ensures !Fenced(line)
  {
    QuotedIsQuote(line);
    QuotedIsNothingElse(line);
    FencedIsFence(line);
  }

  /** What kind of block stands at a place outside a fence. */
  lemma OneKind(digit: char -> bool, lines: seq<string>, p: Place, b: Block)
    requires p.i < |lines| && p.fence == None && After(digit, lines, p, b).Some?
    ensures var line := lines[p.i];
            && (b.Verbatim? ==> Fenced(line) || CopiedLine(lines, p.i) || Hollowed(line))
            && (b.Paragraph? ==> ParagraphRule(digit, lines, p.i, |b.lines|) && b.lines == lines[p.i..p.i + |b.lines|])
            && (b.Item? ==> ItemRule(digit, lines, p.i, |b.rest|, |b.indent|, |b.indent + b.marker|)
                            && line == b.indent + b.marker + b.first && b.rest == lines[p.i + 1..p.i + 1 + |b.rest|])
            && (b.Quote? ==> !CopiedLine(lines, p.i) && QuoteRule(lines, p.i, b.rows)
                             && Quoted(line) && b.prefix == RunPrefix(p.run, line))
  {
  }

  lemma HollowedIsQuoted(line: string)
    ensures Hollowed(line) ==> Quoted(line)
  {
  }

  lemma ApartFromCopies(digit: char -> bool, lines: seq<string>, p: Place, b: Block)
    requires p.i < |lines| && p.fence == None && After(digit, lines, p, b).Some? && !b.Verbatim?
    ensures !Fenced(lines[p.i]) && !CopiedLine(lines, p.i) && !Hollowed(lines[p.i])
    ensures b.Quote? <==> Quoted(lines[p.i])
    ensures !b.Quote? ==> (b.Item? <==> Listed(digit, lines[p.i]))
  {
    var line := lines[p.i];
    OneKind(digit, lines, p, b);
    if b.Quote? {
      QuotedIsNotFenced(line);
      assert RowRule(lines[p.i + 0], b.rows[0]);
      FilledIsNotHollow(line, b.rows[0]);
    } else {
      HollowedIsQuoted(line);
      if b.Paragraph? { assert TextLine(digit, line); }
    }
  }

  lemma SameItemParts(line: string, a: Block, b: Block)
    requires a.Item? && b.Item? && line == a.indent + a.marker + a.first && line == b.indent + b.marker + b.first
    requires |a.indent| == |b.indent| && |a.indent + a.marker| == |b.indent + b.marker|
    ensures a.indent == b.indent && a.marker == b.marker && a.first == b.first
  {
    var l, e := |a.indent|, |a.indent + a.marker|;
    assert a.indent == line[..l] && b.indent == line[..l];
    assert a.marker == line[l..e] && b.marker == line[l..e];
    assert a.first == line[e..] && b.first == line[e..];
  }

  lemma SameText(digit: char -> bool, lines: seq<string>, p: Place, a: Block, b: Block)
    requires AreDigits(digit) && p.i < |lines| && p.fence == None && !a.Verbatim? && !b.Verbatim?
    requires After(digit, lines, p, a).Some? && After(digit, lines, p, b).Some?
    ensures a == b
  {
    ApartFromCopies(digit, lines, p, a);
    ApartFromCopies(digit, lines, p, b);
    OneKind(digit, lines, p, a);
    OneKind(digit, lines, p, b);
    if a.Quote? {
      SameRows(lines, p.i, a.rows, b.rows);
    } else if a.Item? {
      SameItem(digit, lines, p.i, |a.rest|, |b.rest|, |a.indent|, |a.indent + a.marker|, |b.indent|, |b.indent + b.marker|);
      SameItemParts(lines[p.i], a, b);
    } else {
      SameParagraph(digit, lines, p.i, |a.lines|, |b.lines|);
    }
  }

  /** At every place at most one block stands. */
  lemma OneBlock(digit: char -> bool, lines: seq<string>, p: Place, a: Block, b: Block)
    requires AreDigits(digit) && After(digit, lines, p, a).Some? && After(digit, lines, p, b).Some?
    ensures p.i < |lines| && a == b
  {
    if p.fence == None {
      if a.Verbatim? != b.Verbatim? {
        OneKind(digit, lines, p, if a.Verbatim? then a else b);
        ApartFromCopies(digit, lines, p, if a.Verbatim? then b else a);
      } else if !a.Verbatim? {
        SameText(digit, lines, p, a, b);
      }
    }
  }

  ghost predicate Deterministic(after: Follows, n: nat) {
    forall p: Place, a: Block, b: Block {:trigger after(p, a), after(p, b)} ::
      after(p, a).Some? && after(p, b).Some? ==> p.i < n && a == b
  }

  lemma {:induction false} OneReading(after: Follows, n: nat, p: Place, bs: seq<Block>, bs': seq<Block>)
    requires Deterministic(after, n) && Leads(after, n, p, bs) && Leads(after, n, p, bs')
    ensures bs == bs'
    decreases |bs|
  {
    if bs != [] && bs' != [] {
      OneReading(after, n, after(p, bs[0]).value, bs[1..], bs'[1..]);
      assert bs == [bs[0]] + bs[1..] && bs' == [bs'[0]] + bs'[1..];
    }
  }

  lemma GrammarIsDeterministic(digit: char -> bool, lines: seq<string>)
    requires AreDigits(digit)
    ensures Deterministic(Grammar(digit, lines), |lines|)
  {
    forall p: Place, a: Block, b: Block
      | Grammar(digit, lines)(p, a).Some? && Grammar(digit, lines)(p, b).Some?
      ensures p.i < |lines| && a == b
    {
      OneBlock(digit, lines, p, a, b);
    }
  }

  /**
   Every document is its front matter, copied, and then exactly the blocks of the grammar: no other blocks lead
   from there to its end.
   */
  lemma DocumentIsRead(digit: char -> bool, lines: seq<string>) returns (f: nat, bs: seq<Block>)
    requires AreDigits(digit)
    ensures f <= |lines| && FrontRule(lines, f) && MarkdownScanner.DocumentOf(digit, lines) == Verbatims(lines[..f]) + bs
    ensures Leads(Grammar(digit, lines), |lines|, Place(f, None, None), bs)
    ensures forall other: seq<Block> :: Leads(Grammar(digit, lines), |lines|, Place(f, None, None), other) ==> other == bs
  {
    var kinds := KindsOf(digit, lines);
    KindsDescribe(digit, lines);
    f, bs := Front(lines), Blocks(lines, kinds, Front(lines), None);
    FrontIsExact(lines);
    LeadsBlocks(digit, lines, kinds, f, None);
    GrammarIsDeterministic(digit, lines);
    forall other: seq<Block> | Leads(Grammar(digit, lines), |lines|, Place(f, None, None), other) ensures other == bs {
      OneReading(Grammar(digit, lines), |lines|, Place(f, None, None), other, bs);
    }
  }
}
