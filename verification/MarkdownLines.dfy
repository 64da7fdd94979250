/** How the Markdown scanner classifies a line. */
module MarkdownLines {
  import opened Wrappers
  import opened Sequences
  import opened Text

  /** Where the line begins behind its whitespace. */
  function Lead(line: string): nat {
    RunEnd(line, 0, IsSpace)
  }

  /** The first character behind at most three characters of whitespace. */
  function Opening(line: string): Option<char> {
    var l := Lead(line);
    if l <= 3 && l < |line| then Some(line[l]) else None
  }

  function Three(c: char): string {
    [c, c, c]
  }

  /** The character of a code fence. */
  function Fence(line: string): Option<char> {
    match Opening(line)
    case Some(c) => if c in "`~" && Three(c) <= line[Lead(line)..] then Some(c) else None
    case None => None
  }

  predicate Heading(line: string) {
    var l := Lead(line);
    var e := RunEnd(line, l, c => c == '#');
    l <= 3 && 1 <= e - l <= 6 && e < |line| && IsSpace(line[e])
  }

  predicate Rule(line: string, mark: char) {
    var l := Lead(line);
    var e := RunEnd(line, l, c => c == mark);
    l <= 3 && 3 <= e - l && Blank(line[e..])
  }

  predicate ReferenceLink(line: string) {
    Opening(line) == Some('[') &&
    var l := Lead(line);
    var e := RunEnd(line, l + 1, c => c != ']');
    l + 1 < e && e + 2 < |line| && line[e + 1] == ':' && IsSpace(line[e + 2])
  }

  predicate PassThrough(line: string) {
    || Heading(line)
    || Opening(line) == Some('|')
    || Rule(line, '-') || Rule(line, '*') || Rule(line, '_')
    || Opening(line) == Some('<')
    || ReferenceLink(line)
  }

  predicate Indented(line: string) {
    "    " <= line || "\t" <= line
  }

  /** The length of the prefix of a quoted line, 0 for any other line. */
  function QuoteWidth(line: string): (r: nat)
    ensures r <= |line|
  {
    if Opening(line) != Some('>') then 0
    else
      var l := Lead(line);
      if l + 1 < |line| && IsSpace(line[l + 1]) then l + 2 else l + 1
  }

  /** The marker of a list item stands between `indent` and `text`. */
  datatype ItemMark = ItemMark(indent: nat, text: nat)

  function ItemAt(digit: char -> bool, line: string): (r: Option<ItemMark>)
    ensures r.Some? ==> r.value.indent < r.value.text <= |line|
    ensures r.Some? ==> Blank(line[..r.value.indent]) && IsSpace(line[r.value.text - 1])
  {
    var l := Lead(line);
    var d := RunEnd(line, l, digit);
    var sign :=
      if l < |line| && line[l] in "-*+" then l + 1
      else if l < d < |line| && line[d] in ".)" then d + 1
      else l;
    var e := RunEnd(line, sign, IsSpace);
    RunIsMaximal(line, 0, IsSpace);
    RunIsMaximal(line, sign, IsSpace);
    if l < sign < e then Some(ItemMark(l, e)) else None
  }

  /** What the scanner asks about a line; `quote` is the length of its quote prefix, 0 when it has none. */
  datatype Kind = Kind(fence: Option<char>, blank: bool, pass: bool, indented: bool, quote: nat,
                       item: Option<ItemMark>)

  function KindOf(digit: char -> bool, line: string): Kind {
    Kind(Fence(line), Blank(line), PassThrough(line), Indented(line), QuoteWidth(line), ItemAt(digit, line))
  }

  function KindsOf(digit: char -> bool, lines: seq<string>): (r: seq<Kind>)
    ensures |r| == |lines|
  {
    if lines == [] then [] else [KindOf(digit, lines[0])] + KindsOf(digit, lines[1..])
  }

  /** What the scanner relies on: a quoted line is nothing that is copied, and the parts of an item are its line. */
  predicate Describes(kind: Kind, line: string) {
    && kind.quote <= |line|
    && (kind.quote > 0 ==> kind.fence.None? && !kind.blank && !kind.pass)
    && (kind.item.Some? ==>
          var m := kind.item.value;
          m.indent < m.text <= |line| && Blank(line[..m.indent]) && IsSpace(line[m.text - 1]))
  }

  predicate DescribeAll(kinds: seq<Kind>, lines: seq<string>) {
    |kinds| == |lines| && forall k :: 0 <= k < |lines| ==> Describes(kinds[k], lines[k])
  }

  lemma QuotedIsNothingElse(line: string)
    requires QuoteWidth(line) > 0
    ensures Fence(line).None? && !Blank(line) && !PassThrough(line)
  {
    var l := Lead(line);
    assert line[l] == '>';
    assert RunEnd(line, l, c => c == '#') == l;
    assert RunEnd(line, l, c => c == '-') == l;
    assert RunEnd(line, l, c => c == '*') == l;
    assert RunEnd(line, l, c => c == '_') == l;
  }

  lemma ItemDescribes(digit: char -> bool, line: string)
    ensures ItemAt(digit, line).Some? ==>
              var m := ItemAt(digit, line).value;
              m.indent < m.text <= |line| && Blank(line[..m.indent]) && IsSpace(line[m.text - 1])
  {
  }

  lemma KindDescribes(digit: char -> bool, line: string)
    ensures Describes(KindOf(digit, line), line)
  {
    ItemDescribes(digit, line);
    if QuoteWidth(line) > 0 { QuotedIsNothingElse(line); }
  }

  /** The script's patterns describe every document. */
  lemma {:induction false} KindsDescribe(digit: char -> bool, lines: seq<string>)
    ensures DescribeAll(KindsOf(digit, lines), lines)
  {
    if lines != [] {
      var kinds, rest := KindsOf(digit, lines), KindsOf(digit, lines[1..]);
      KindDescribes(digit, lines[0]);
      KindsDescribe(digit, lines[1..]);
      forall k | 0 <= k < |lines| ensures Describes(kinds[k], lines[k]) {
        if k > 0 { assert kinds[k] == rest[k - 1] && lines[k] == lines[1..][k - 1]; }
      }
    }
  }
}
