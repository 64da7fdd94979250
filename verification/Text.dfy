/** Whitespace, stripping, joining and the words of a text, as the string operations of the scripts see them. */
module Text {
  import opened Sequences

  /** The characters that both `str.strip` and the regular expression `\s` call whitespace. */
  predicate IsSpace(c: char) {
    var n := c as int;
    9 <= n <= 13 || 28 <= n <= 32 || n in {0x85, 0xA0, 0x1680, 0x2028, 0x2029, 0x202F, 0x205F, 0x3000}
    || 0x2000 <= n <= 0x200A
  }

  /** They are these 29, by number. */
  lemma Whitespace(c: char)
    ensures IsSpace(c) <==>
      c as int in {0x09, 0x0A, 0x0B, 0x0C, 0x0D, 0x1C, 0x1D, 0x1E, 0x1F, 0x20, 0x85, 0xA0, 0x1680,
                   0x2000, 0x2001, 0x2002, 0x2003, 0x2004, 0x2005, 0x2006, 0x2007, 0x2008, 0x2009, 0x200A,
                   0x2028, 0x2029, 0x202F, 0x205F, 0x3000}
  {
  }

  function Digit(n: int): char
    requires 0 <= n <= 9
  {
    ('0' as int + n) as char
  }

  predicate Blank(s: string) {
    forall k :: 0 <= k < |s| ==> IsSpace(s[k])
  }

  /** The end of the run of characters with the property that begins at `i`. */
  function RunEnd(s: string, i: nat, p: char -> bool): (r: nat)
    requires i <= |s|
    ensures i <= r <= |s|
    decreases |s| - i
  {
    if i < |s| && p(s[i]) then RunEnd(s, i + 1, p) else i
  }

  lemma {:induction false} RunIsMaximal(s: string, i: nat, p: char -> bool)
    requires i <= |s|
    ensures forall k :: i <= k < RunEnd(s, i, p) ==> p(s[k])
    ensures RunEnd(s, i, p) < |s| ==> !p(s[RunEnd(s, i, p)])
    decreases |s| - i
  {
    if i < |s| && p(s[i]) { RunIsMaximal(s, i + 1, p); }
  }

  /** The run that begins at `i` ends at the first character without the property. */
  lemma {:induction false} RunStops(s: string, i: nat, e: nat, p: char -> bool)
    requires i <= e <= |s| && (forall k :: i <= k < e ==> p(s[k])) && (e < |s| ==> !p(s[e]))
    ensures RunEnd(s, i, p) == e
    decreases e - i
  {
    if i < e { RunStops(s, i + 1, e, p); }
  }

  /** The words when a character is put in front: of the first word when it touches it, else a word of its own. */
  function InFront(c: char, touching: bool, words: seq<string>): seq<string> {
    if IsSpace(c) then words
    else if touching && words != [] then [[c] + words[0]] + words[1..]
    else [[c]] + words
  }

  /** The maximal runs of characters that are not whitespace, in order. */
  function Words(s: string): (r: seq<string>)
    ensures s != "" && !IsSpace(s[0]) ==> r != []
  {
    if s == "" then [] else InFront(s[0], |s| > 1 && !IsSpace(s[1]), Words(s[1..]))
  }

  /** The words of a list of lines. */
  function WordsOf(lines: seq<string>): seq<string> {
    if lines == [] then [] else Words(lines[0]) + WordsOf(lines[1..])
  }

  /** Two texts whose words do not run together when one is put behind the other. */
  predicate Apart(a: string, b: string) {
    a == "" || b == "" || IsSpace(a[|a| - 1]) || IsSpace(b[0])
  }

  lemma InFrontOfConcat(c: char, touching: bool, v: seq<string>, w: seq<string>)
    requires v == [] ==> !touching
    ensures InFront(c, touching, v + w) == InFront(c, touching, v) + w
  {
    if touching && v != [] {
      assert (v + w)[0] == v[0] && (v + w)[1..] == v[1..] + w;
      Associate([[c] + v[0]], v[1..], w);
    } else {
      Associate([[c]], v, w);
    }
  }

  lemma {:induction false} WordsOfConcat(a: string, b: string)
    requires Apart(a, b)
    ensures Words(a + b) == Words(a) + Words(b)
  {
    if a == "" {
      assert a + b == b;
    } else {
      WordsOfConcat(a[1..], b);
      assert (a + b)[1..] == a[1..] + b && (a + b)[0] == a[0];
      InFrontOfConcat(a[0], |a| > 1 && !IsSpace(a[1]), Words(a[1..]), Words(b));
    }
  }

  lemma {:induction false} WordsOfAppend(a: seq<string>, b: seq<string>)
    ensures WordsOf(a + b) == WordsOf(a) + WordsOf(b)
  {
    if a == [] {
      assert a + b == b;
    } else {
      WordsOfAppend(a[1..], b);
      assert (a + b)[1..] == a[1..] + b && (a + b)[0] == a[0];
      Associate(Words(a[0]), WordsOf(a[1..]), WordsOf(b));
    }
  }

  lemma {:induction false} BlankHasNoWords(s: string)
    ensures Words(s) == [] <==> Blank(s)
  {
    if s != "" {
      BlankHasNoWords(s[1..]);
      assert Blank(s) <==> IsSpace(s[0]) && Blank(s[1..]) by {
        assert forall k :: 0 < k < |s| ==> s[k] == s[1..][k - 1];
      }
    }
  }

  /** One of the words holds the character. */
  predicate Holds(words: seq<string>, c: char) {
    words != [] && (c in words[0] || Holds(words[1..], c))
  }

  /** A character that is not whitespace is in the text exactly when it is in one of its words. */
  lemma {:induction false} WordsHoldTheLetters(s: string, c: char)
    requires !IsSpace(c)
    ensures c in s <==> Holds(Words(s), c)
  {
    if s != "" {
      WordsHoldTheLetters(s[1..], c);
      assert s == [s[0]] + s[1..];
      HoldsInFront(s[0], |s| > 1 && !IsSpace(s[1]), Words(s[1..]), c);
    }
  }

  lemma HoldsInFront(d: char, touching: bool, words: seq<string>, c: char)
    requires !IsSpace(c)
    ensures Holds(InFront(d, touching, words), c) <==> c == d || Holds(words, c)
  {
    var r := InFront(d, touching, words);
    if !IsSpace(d) { assert r[1..] == if touching && words != [] then words[1..] else words; }
  }

  function StripLeft(s: string): string {
    s[RunEnd(s, 0, IsSpace)..]
  }

  function StripRight(s: string): (r: string)
    ensures r <= s
  {
    if s != "" && IsSpace(s[|s| - 1]) then StripRight(s[..|s| - 1]) else s
  }

  function Strip(s: string): string {
    StripRight(StripLeft(s))
  }

  predicate IsStripped(s: string) {
    s != "" && !IsSpace(s[0]) && !IsSpace(s[|s| - 1])
  }

  lemma {:induction false} StripRightEnd(s: string)
    ensures StripRight(s) != "" ==> !IsSpace(StripRight(s)[|StripRight(s)| - 1])
  {
    if s != "" && IsSpace(s[|s| - 1]) { StripRightEnd(s[..|s| - 1]); }
  }

  lemma StripEnds(s: string)
    ensures Strip(s) != "" ==> IsStripped(Strip(s))
  {
    RunIsMaximal(s, 0, IsSpace);
    StripRightEnd(StripLeft(s));
  }

  /** A blank stretch in front of a text or behind it adds no word. */
  lemma BlankAround(a: string, s: string, b: string)
    requires Blank(a) && Blank(b)
    ensures Words(a + s + b) == Words(s)
  {
    BlankHasNoWords(a);
    BlankHasNoWords(b);
    WordsOfConcat(a, s);
    WordsOfConcat(a + s, b);
  }

  lemma StripLeftKeepsWords(s: string)
    ensures Words(StripLeft(s)) == Words(s)
  {
    var n := RunEnd(s, 0, IsSpace);
    RunIsMaximal(s, 0, IsSpace);
    BlankAround(s[..n], s[n..], "");
    assert s == s[..n] + s[n..] + "";
  }

  lemma {:induction false} StripRightKeepsWords(s: string)
    ensures Words(StripRight(s)) == Words(s)
  {
    var n := |s| - 1;
    if s != "" && IsSpace(s[n]) {
      StripRightKeepsWords(s[..n]);
      BlankHasNoWords([s[n]]);
      WordsOfConcat(s[..n], [s[n]]);
      assert s == s[..n] + [s[n]];
    }
  }

  lemma StripKeepsWords(s: string)
    ensures Words(Strip(s)) == Words(s)
    ensures Strip(s) == "" <==> Blank(s)
  {
    StripLeftKeepsWords(s);
    StripRightKeepsWords(StripLeft(s));
    StripEnds(s);
    BlankHasNoWords(s);
  }

  /** The stripped lines that are not empty, in order. */
  function Stripped(lines: seq<string>): seq<string> {
    if lines == [] then []
    else (if Strip(lines[0]) == "" then [] else [Strip(lines[0])]) + Stripped(lines[1..])
  }

  lemma {:induction false} StrippedAreStripped(lines: seq<string>, k: nat)
    requires k < |Stripped(lines)|
    ensures IsStripped(Stripped(lines)[k])
  {
    var rest := Stripped(lines[1..]);
    StripEnds(lines[0]);
    if Strip(lines[0]) == "" {
      assert Stripped(lines) == rest;
      StrippedAreStripped(lines[1..], k);
    } else if k > 0 {
      assert Stripped(lines)[k] == rest[k - 1];
      StrippedAreStripped(lines[1..], k - 1);
    }
  }

  lemma {:induction false} StrippedKeepsWords(lines: seq<string>)
    ensures WordsOf(Stripped(lines)) == WordsOf(lines)
  {
    if lines != [] {
      StripKeepsWords(lines[0]);
      StrippedKeepsWords(lines[1..]);
      WordsOfAppend(if Strip(lines[0]) == "" then [] else [Strip(lines[0])], Stripped(lines[1..]));
    }
  }

  /** The lines with one space between each and the next. */
  function Join(lines: seq<string>): string {
    if lines == [] then "" else if |lines| == 1 then lines[0] else lines[0] + " " + Join(lines[1..])
  }

  lemma {:induction false} JoinKeepsWords(lines: seq<string>)
    ensures Words(Join(lines)) == WordsOf(lines)
  {
    if |lines| == 1 {
      assert WordsOf(lines[1..]) == [];
    } else if |lines| > 1 {
      var head, rest := lines[0], Join(lines[1..]);
      JoinKeepsWords(lines[1..]);
      BlankHasNoWords(" ");
      WordsOfConcat(head, " ");
      WordsOfConcat(head + " ", rest);
    }
  }
}
