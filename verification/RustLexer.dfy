/**
 `rust_code`, the scanner that blanks the comments and literals of a Rust source text so that
 a later search only sees code. The scanner edits a buffer in place with index arithmetic and a
 nesting counter; it is proved to compute the recursive lexer `Mask`, and masking is proved
 to be idempotent.

 `word` is the class `\w` of the regular-expression engine, left arbitrary.
 */
module RustLexer {
  import opened Wrappers

  const QUOTE := '\"'
  const APOSTROPHE := '\''
  const LEFT_BRACE := '{'
  const RIGHT_BRACE := '}'

  // ----- The recursive lexer -----

  predicate StartsWith(s: string, p: string, i: nat) {
    i + |p| <= |s| && s[i..i + |p|] == p
  }

  predicate PairAt(s: string, a: char, b: char, i: nat) {
    i + 1 < |s| && s[i] == a && s[i + 1] == b
  }

  /** `str.find`: the first occurrence of `p` at or after `from`. */
  function Find(s: string, p: string, from: nat): (r: Option<nat>)
    ensures r.Some? ==> from <= r.value && StartsWith(s, p, r.value)
                        && forall q :: from <= q < r.value ==> !StartsWith(s, p, q)
    ensures r.None? ==> forall q :: from <= q <= |s| ==> !StartsWith(s, p, q)
    decreases |s| - from
  {
    if from > |s| then None
    else if StartsWith(s, p, from) then Some(from)
    else if from == |s| then None
    else Find(s, p, from + 1)
  }

  /**
   The end of a block comment whose body starts at `p`: text and whole nested comments, up to
   the first closing mark that belongs to this comment.
   */
  function BodyEnd(s: string, p: nat): (r: Option<nat>)
    ensures r.Some? ==> p + 2 <= r.value <= |s|
    decreases |s| - p
  {
    if p >= |s| then None
    else if PairAt(s, '/', '*', p) then
      var inner := BodyEnd(s, p + 2);
      if inner.None? then None else BodyEnd(s, inner.value)
    else if PairAt(s, '*', '/', p) then Some(p + 2)
    else BodyEnd(s, p + 1)
  }

  /** The end of a string literal whose contents start at `p`; a backslash hides one character. */
  function StringEnd(s: string, p: nat): (r: Option<nat>)
    ensures r.Some? ==> p < r.value <= |s|
    decreases |s| - p
  {
    if p >= |s| then None
    else if s[p] == '\\' then StringEnd(s, p + 2)
    else if s[p] == QUOTE then Some(p + 1)
    else StringEnd(s, p + 1)
  }

  function SkipHashes(s: string, p: nat): (r: nat)
    requires p <= |s|
    ensures p <= r <= |s|
    decreases |s| - p
  {
    if p < |s| && s[p] == '#' then SkipHashes(s, p + 1) else p
  }

  datatype RawOpening = RawOpening(contents: nat, hashes: nat)

  /** The opening of a raw string at `i`: not inside a word, then `r`, `br` or `cr`, hashes and a quote. */
  function RawOpen(word: char -> bool, s: string, i: nat): (r: Option<RawOpening>)
    requires i < |s|
    ensures r.Some? ==> i + 2 <= r.value.contents <= |s| && s[r.value.contents - 1] == QUOTE
  {
    if i > 0 && word(s[i - 1]) then None
    else
      var j := if s[i] == 'b' || s[i] == 'c' then i + 1 else i;
      if j < |s| && s[j] == 'r' then
        var k := SkipHashes(s, j + 1);
        if k < |s| && s[k] == QUOTE then Some(RawOpening(k + 1, k - (j + 1))) else None
      else None
  }

  function Delimiter(hashes: nat): (d: string)
    ensures |d| == hashes + 1
  {
    "\"" + seq(hashes, _ => '#')
  }

  predicate IsHex(c: char) {
    '0' <= c <= '9' || 'a' <= c <= 'f' || 'A' <= c <= 'F'
  }

  function SkipHexDigits(s: string, p: nat): (r: nat)
    requires p <= |s|
    ensures p <= r <= |s|
    ensures forall k :: p <= k < r ==> IsHex(s[k]) || s[k] == '_'
    decreases |s| - p
  {
    if p < |s| && (IsHex(s[p]) || s[p] == '_') then SkipHexDigits(s, p + 1) else p
  }

  /** A char literal at the quote at `i`: one character, a one-character escape, `\xHH` or `\u{H..}`. */
  function CharEnd(s: string, i: nat): (r: Option<nat>)
    requires i < |s|
    ensures r.Some? ==> i + 3 <= r.value <= |s| && s[r.value - 1] == APOSTROPHE
  {
    if i + 2 < |s| && s[i + 1] != APOSTROPHE && s[i + 1] != '\\' && s[i + 1] != '\n' && s[i + 2] == APOSTROPHE then Some(i + 3)
    else if i + 3 < |s| && s[i + 1] == '\\' then
      if s[i + 2] == 'u' && s[i + 3] == LEFT_BRACE then
        var j := SkipHexDigits(s, i + 4);
        if i + 4 < j && j + 1 < |s| && s[j] == RIGHT_BRACE && s[j + 1] == APOSTROPHE then Some(j + 2) else None
      else if s[i + 2] == 'x' && i + 5 < |s| && IsHex(s[i + 3]) && IsHex(s[i + 4]) && s[i + 5] == APOSTROPHE then Some(i + 6)
      else if s[i + 2] != '\n' && s[i + 3] == APOSTROPHE then Some(i + 4)
      else None
    else None
  }

  predicate OneCharacter(b: string) {
    |b| == 1 && b[0] !in "'\\\n"
  }

  predicate SimpleEscape(b: string) {
    |b| == 2 && b[0] == '\\' && b[1] != '\n'
  }

  predicate HexEscape(b: string) {
    && |b| == 4 && b[0] == '\\' && b[1] == 'x'
    && b[2] in "0123456789abcdefABCDEF" && b[3] in "0123456789abcdefABCDEF"
  }

  predicate UnicodeEscape(b: string) {
    && |b| >= 5 && b[0] == '\\' && b[1] == 'u' && b[2] == '{' && b[|b| - 1] == '}'
    && forall k :: 3 <= k < |b| - 1 ==> b[k] in "0123456789abcdefABCDEF_"
  }

  /**
   The texts of char literals, by the alternatives of the pattern: between two quotes, one character that
   is no quote, backslash or newline; a backslash and any character but a newline; `\x` and two hexadecimal
   digits; or `\u` and braces around hexadecimal digits and underscores.
   */
  predicate IsCharLiteral(t: string) {
    && |t| >= 3 && t[0] == '\'' && t[|t| - 1] == '\''
    && var b := t[1..|t| - 1]; OneCharacter(b) || SimpleEscape(b) || HexEscape(b) || UnicodeEscape(b)
  }

  lemma HexClass(c: char)
    ensures IsHex(c) <==> c in "0123456789abcdefABCDEF"
    ensures IsHex(c) || c == '_' <==> c in "0123456789abcdefABCDEF_"
  {
  }

  /** The run of digits ends at the first character that is none. */
  lemma {:induction false} HexRun(s: string, p: nat, q: nat)
    requires p <= q < |s| && !IsHex(s[q]) && s[q] != '_'
    requires forall k :: p <= k < q ==> IsHex(s[k]) || s[k] == '_'
    ensures SkipHexDigits(s, p) == q
    decreases q - p
  {
    if p < q { HexRun(s, p + 1, q); }
  }

  lemma BetweenQuotes(s: string, i: nat, e: nat)
    requires i + 2 <= e <= |s|
    ensures s[i..e][1..|s[i..e]| - 1] == s[i + 1..e - 1]
  {
    var t := s[i..e];
    var b := t[1..|t| - 1];
    assert forall k :: 0 <= k < |b| ==> b[k] == s[i + 1 + k];
  }

  lemma FoundUnicode(s: string, i: nat, e: nat, b: string)
    requires i + 7 <= e <= |s| && b == s[i + 1..e - 1] && s[i + 1] == '\\' && s[i + 2] == 'u' && s[i + 3] == '{' && s[e - 2] == '}'
    requires forall k :: i + 4 <= k < e - 2 ==> IsHex(s[k]) || s[k] == '_'
    ensures UnicodeEscape(b)
  {
    forall k | 3 <= k < |b| - 1 ensures b[k] in "0123456789abcdefABCDEF_" {
      assert b[k] == s[i + 1 + k];
      HexClass(b[k]);
    }
  }

  lemma FoundHex(s: string, i: nat, b: string)
    requires i + 6 <= |s| && b == s[i + 1..i + 5] && s[i + 1] == '\\' && s[i + 2] == 'x' && IsHex(s[i + 3]) && IsHex(s[i + 4])
    ensures HexEscape(b)
  {
    assert b[2] == s[i + 3] && b[3] == s[i + 4];
    HexClass(b[2]);
    HexClass(b[3]);
  }

  /** What `CharEnd` finds is a char literal. */
  lemma CharEndIsLiteral(s: string, i: nat, e: nat)
    requires i < |s| && s[i] == APOSTROPHE && CharEnd(s, i) == Some(e)
    ensures IsCharLiteral(s[i..e])
  {
    var b := s[i + 1..e - 1];
    BetweenQuotes(s, i, e);
    if s[i + 1] != '\\' {
      assert OneCharacter(b);
    } else if s[i + 2] == 'u' && s[i + 3] == LEFT_BRACE {
      FoundUnicode(s, i, e, b);
    } else if e == i + 6 {
      FoundHex(s, i, b);
    } else {
      assert SimpleEscape(b);
    }
  }

  lemma ShortIsCharEnd(s: string, i: nat, b: string)
    requires i + |b| + 1 < |s| && b == s[i + 1..i + 1 + |b|] && s[i + 1 + |b|] == APOSTROPHE
    requires OneCharacter(b) || SimpleEscape(b)
    ensures CharEnd(s, i) == Some(i + |b| + 2)
  {
    assert b[0] == s[i + 1];
    if |b| == 2 { assert b[1] == s[i + 2]; }
  }

  lemma HexIsCharEnd(s: string, i: nat, b: string)
    requires i + |b| + 1 < |s| && b == s[i + 1..i + 1 + |b|] && s[i + 1 + |b|] == APOSTROPHE && HexEscape(b)
    ensures CharEnd(s, i) == Some(i + |b| + 2)
  {
    assert b[0] == s[i + 1] && b[1] == s[i + 2] && b[2] == s[i + 3] && b[3] == s[i + 4];
    HexClass(b[2]);
    HexClass(b[3]);
  }

  lemma UnicodeIsCharEnd(s: string, i: nat, b: string)
    requires i + |b| + 1 < |s| && b == s[i + 1..i + 1 + |b|] && s[i + 1 + |b|] == APOSTROPHE && UnicodeEscape(b)
    ensures CharEnd(s, i) == Some(i + |b| + 2)
  {
    assert b[0] == s[i + 1] && b[1] == s[i + 2] && b[2] == s[i + 3] && b[|b| - 1] == s[i + |b|];
    forall k | i + 4 <= k < i + |b| ensures IsHex(s[k]) || s[k] == '_' {
      assert s[k] == b[k - i - 1];
      HexClass(s[k]);
    }
    HexRun(s, i + 4, i + |b|);
  }

  /** A char literal is found. */
  lemma LiteralIsCharEnd(s: string, i: nat, e: nat)
    requires i < e <= |s| && IsCharLiteral(s[i..e])
    ensures CharEnd(s, i) == Some(e)
  {
    var b := s[i + 1..e - 1];
    BetweenQuotes(s, i, e);
    assert s[e - 1] == s[i..e][|s[i..e]| - 1];
    if HexEscape(b) {
      HexIsCharEnd(s, i, b);
    } else if UnicodeEscape(b) {
      UnicodeIsCharEnd(s, i, b);
    } else {
      ShortIsCharEnd(s, i, b);
    }
  }

  /** So the scanner's pattern matches exactly the char literals, up to their end. */
  lemma CharEndIsExact(s: string, i: nat, e: nat)
    requires i < |s| && s[i] == APOSTROPHE
    ensures CharEnd(s, i) == Some(e) <==> i < e <= |s| && IsCharLiteral(s[i..e])
  {
    if CharEnd(s, i) == Some(e) { CharEndIsLiteral(s, i, e); }
    if i < e <= |s| && IsCharLiteral(s[i..e]) { LiteralIsCharEnd(s, i, e); }
  }

  /** What starts at a position: code, a region ending before `end`, or a region that never ends. */
  datatype Start = Code | Inert(end: nat) | Unterminated

  function EndsAt(e: Option<nat>): Start {
    match e
    case None => Unterminated
    case Some(end) => Inert(end)
  }

  function StartAt(word: char -> bool, s: string, i: nat): (r: Start)
    requires i < |s|
    ensures r.Inert? ==> i + 2 <= r.end <= |s|
    ensures s[i] == QUOTE ==> !r.Code?
  {
    if PairAt(s, '/', '/', i) then
      var newline := Find(s, "\n", i + 2);
      Inert(if newline.None? then |s| else newline.value)
    else if PairAt(s, '/', '*', i) then EndsAt(BodyEnd(s, i + 2))
    else
      var raw := RawOpen(word, s, i);
      if raw.Some? then
        var d := Delimiter(raw.value.hashes);
        var closing := Find(s, d, raw.value.contents);
        if closing.None? then Unterminated else Inert(closing.value + |d|)
      else if s[i] == QUOTE then EndsAt(StringEnd(s, i + 1))
      else if s[i] == APOSTROPHE && CharEnd(s, i).Some? then Inert(CharEnd(s, i).value)
      else Code
  }

  function Blank(c: char): char {
    if c == '\n' then '\n' else ' '
  }

  function Blanks(s: string): string {
    seq(|s|, k requires 0 <= k < |s| => Blank(s[k]))
  }

  function Prepend(p: string, rest: Option<string>): Option<string> {
    match rest
    case None => None
    case Some(t) => Some(p + t)
  }

  /** The text from `i` on with its inert regions blanked; none when one of them never ends. */
  function Mask(word: char -> bool, s: string, i: nat): Option<string>
    requires i <= |s|
    decreases |s| - i
  {
    if i == |s| then Some("")
    else
      match StartAt(word, s, i)
      case Code => Prepend([s[i]], Mask(word, s, i + 1))
      case Inert(end) => Prepend(Blanks(s[i..end]), Mask(word, s, end))
      case Unterminated => None
  }

  // ----- The scanner -----

  /** The end of a body at nesting `depth`: closing one comment after another. */
  function Exit(s: string, p: nat, depth: nat): Option<nat>
    decreases depth
  {
    if depth == 0 then Some(p)
    else
      var e := BodyEnd(s, p);
      if e.None? then None else Exit(s, e.value, depth - 1)
  }

  lemma ExitOnce(s: string, p: nat)
    ensures Exit(s, p, 1) == BodyEnd(s, p)
  {
    if BodyEnd(s, p).Some? { assert Exit(s, BodyEnd(s, p).value, 0) == BodyEnd(s, p); }
  }

  /** One turn of the counting loop leaves the end of the outermost comment where it was. */
  lemma ExitStep(s: string, p: nat, depth: nat)
    requires p < |s| && depth > 0
    ensures Exit(s, p, depth) ==
            if PairAt(s, '/', '*', p) then Exit(s, p + 2, depth + 1)
            else if PairAt(s, '*', '/', p) then Exit(s, p + 2, depth - 1)
            else Exit(s, p + 1, depth)
  {
  }

  /** The counting loop for block comments finds the end the nested grammar gives. */
  method BlockCommentEnd(contents: string, index: nat) returns (end: nat, depth: nat)
    requires PairAt(contents, '/', '*', index)
    ensures BodyEnd(contents, index + 2) == if depth == 0 then Some(end) else None
  {
    end, depth := index + 2, 1;
    ExitOnce(contents, end);
    ghost var goal := BodyEnd(contents, index + 2);
    while end < |contents| && depth > 0
      invariant Exit(contents, end, depth) == goal
      decreases |contents| - end
    {
      ExitStep(contents, end, depth);
      if PairAt(contents, '/', '*', end) {
        depth, end := depth + 1, end + 2;
      } else if PairAt(contents, '*', '/', end) {
        depth, end := depth - 1, end + 2;
      } else {
        end := end + 1;
      }
    }
  }

  method StringLiteralEnd(contents: string, index: nat) returns (end: nat, closed: bool)
    requires index < |contents|
    ensures StringEnd(contents, index + 1) == if closed then Some(end) else None
  {
    end, closed := index + 1, false;
    while end < |contents|
      invariant StringEnd(contents, end) == StringEnd(contents, index + 1)
      decreases |contents| - end
    {
      if contents[end] == '\\' {
        end := end + 2;
      } else if contents[end] == QUOTE {
        end := end + 1;
        closed := true;
        return;
      } else {
        end := end + 1;
      }
    }
  }

  method RegionAt(word: char -> bool, contents: string, index: nat) returns (start: Start)
    requires index < |contents|
    ensures start == StartAt(word, contents, index)
  {
    if PairAt(contents, '/', '/', index) {
      var newline := Find(contents, "\n", index + 2);
      return Inert(if newline.None? then |contents| else newline.value);
    } else if PairAt(contents, '/', '*', index) {
      var end, depth := BlockCommentEnd(contents, index);
      return if depth > 0 then Unterminated else Inert(end);
    }
    var raw := RawOpen(word, contents, index);
    if raw.Some? {
      var delimiter := Delimiter(raw.value.hashes);
      var closing := Find(contents, delimiter, raw.value.contents);
      return if closing.None? then Unterminated else Inert(closing.value + |delimiter|);
    } else if contents[index] == QUOTE {
      var end, closed := StringLiteralEnd(contents, index);
      return if !closed then Unterminated else Inert(end);
    } else if contents[index] == APOSTROPHE {
      var literal := CharEnd(contents, index);
      if literal.Some? { return Inert(literal.value); }
      // Otherwise the apostrophe opens a lifetime, which stays visible.
    }
    return Code;
  }

  /** `rust_code`: none stands for the `ValueError` of an unterminated region. */
  method RustCode(word: char -> bool, contents: string) returns (r: Option<string>)
    ensures r == Mask(word, contents, 0)
  {
    var code := new char[|contents|](k requires 0 <= k < |contents| => contents[k]);
    var index := 0;
    PrependNothing(code[..0], Mask(word, contents, 0));
    while index < |contents|
      invariant 0 <= index <= |contents|
      invariant forall k :: index <= k < |contents| ==> code[k] == contents[k]
      invariant Mask(word, contents, 0) == Prepend(code[..index], Mask(word, contents, index))
    {
      ghost var before := code[..index];
      var start := RegionAt(word, contents, index);
      match start
      case Unterminated => return None;
      case Code =>
        MaskStep(word, contents, index, index + 1, before, [contents[index]]);
        assert code[..index + 1] == before + [contents[index]];
        index := index + 1;
      case Inert(end) =>
        Overwrite(code, contents, index, end);
        MaskStep(word, contents, index, end, before, Blanks(contents[index..end]));
        index := end;
    }
    assert code[..index] + "" == code[..];
    r := Some(code[..]);
  }

  lemma PrependNothing(p: string, rest: Option<string>)
    requires p == ""
    ensures Prepend(p, rest) == rest
  {
    if rest.Some? { assert p + rest.value == rest.value; }
  }

  /** Moving the piece `q` read at `i` from the rest of the text to the part already done. */
  lemma MaskStep(word: char -> bool, s: string, i: nat, next: nat, done: string, q: string)
    requires i < next <= |s|
    requires || (StartAt(word, s, i) == Code && next == i + 1 && q == [s[i]])
             || (StartAt(word, s, i) == Inert(next) && q == Blanks(s[i..next]))
    ensures Prepend(done, Mask(word, s, i)) == Prepend(done + q, Mask(word, s, next))
  {
    var rest := Mask(word, s, next);
    if rest.Some? { assert done + (q + rest.value) == done + q + rest.value; }
  }

  /** The slice assignment that blanks one region of the buffer. */
  method Overwrite(code: array<char>, contents: string, index: nat, end: nat)
    requires index <= end <= |contents| == code.Length
    modifies code
    ensures code[..end] == old(code[..index]) + Blanks(contents[index..end])
    ensures forall j :: end <= j < code.Length ==> code[j] == old(code[j])
  {
    for k := index to end
      invariant forall j :: 0 <= j < index || k <= j < code.Length ==> code[j] == old(code[j])
      invariant forall j :: index <= j < k ==> code[j] == Blank(contents[j])
    {
      code[k] := Blank(contents[k]);
    }
  }

  // ----- What masking keeps -----

  /** The lexer, started at `i`, reads position `k` as code. */
  predicate CodeAt(word: char -> bool, s: string, i: nat, k: nat)
    requires i <= |s|
    decreases |s| - i
  {
    i < |s| &&
    match StartAt(word, s, i)
    case Code => k == i || CodeAt(word, s, i + 1, k)
    case Inert(end) => CodeAt(word, s, end, k)
    case Unterminated => false
  }

  lemma {:induction false} CodeAtRange(word: char -> bool, s: string, i: nat, k: nat)
    requires i <= |s| && CodeAt(word, s, i, k)
    ensures i <= k < |s| && StartAt(word, s, k) == Code
    decreases |s| - i
  {
    match StartAt(word, s, i)
    case Code => if k != i { CodeAtRange(word, s, i + 1, k); }
    case Inert(end) => CodeAtRange(word, s, end, k);
  }

  /** One step of the lexer over a code character. */
  lemma CodeStep(word: char -> bool, s: string, i: nat, k: nat)
    requires i < |s| && StartAt(word, s, i) == Code
    ensures CodeAt(word, s, i, k) <==> k == i || CodeAt(word, s, i + 1, k)
    ensures Mask(word, s, i) == Prepend([s[i]], Mask(word, s, i + 1))
  {
  }

  /** One step of the lexer over an inert region. */
  lemma InertStep(word: char -> bool, s: string, i: nat, end: nat, k: nat)
    requires i < |s| && StartAt(word, s, i) == Inert(end)
    ensures i + 2 <= end <= |s|
    ensures CodeAt(word, s, i, k) <==> CodeAt(word, s, end, k)
    ensures Mask(word, s, i) == Prepend(Blanks(s[i..end]), Mask(word, s, end))
  {
  }

  /** The masked text from `i` on reads as it should at `k`. */
  ghost predicate ReadsAt(word: char -> bool, s: string, i: nat, o: string, k: nat)
    requires i <= |s|
  {
    |o| == |s| - i && (i <= k < |s| ==> o[k - i] == if CodeAt(word, s, i, k) || s[k] == '\n' then s[k] else ' ')
  }

  lemma MaskedCode(word: char -> bool, s: string, i: nat, o: string, k: nat)
    requires i < |s| && StartAt(word, s, i) == Code && o != "" && o[0] == s[i] && ReadsAt(word, s, i + 1, o[1..], k)
    ensures ReadsAt(word, s, i, o, k)
  {
    CodeStep(word, s, i, k);
  }

  lemma MaskedRegion(word: char -> bool, s: string, i: nat, end: nat, o: string, rest: string, k: nat)
    requires i < |s| && StartAt(word, s, i) == Inert(end) && end <= |s|
    requires o == Blanks(s[i..end]) + rest && ReadsAt(word, s, end, rest, k)
    ensures ReadsAt(word, s, i, o, k)
  {
    InertStep(word, s, i, end, k);
    if CodeAt(word, s, end, k) { CodeAtRange(word, s, end, k); }
  }

  /**
   The masked text has the length of the original. Code is copied; every other character
   becomes a space, except that line ends stay, so line numbers are kept.
   */
  lemma {:induction false} MaskedText(word: char -> bool, s: string, i: nat, o: string, k: nat)
    requires i <= |s| && Mask(word, s, i) == Some(o)
    ensures ReadsAt(word, s, i, o, k)
    decreases |s| - i
  {
    if i < |s| {
      match StartAt(word, s, i)
      case Code =>
        CodeStep(word, s, i, k);
        MaskedText(word, s, i + 1, o[1..], k);
        MaskedCode(word, s, i, o, k);
      case Inert(end) =>
        InertStep(word, s, i, end, k);
        var rest := Mask(word, s, end).value;
        MaskedText(word, s, end, rest, k);
        MaskedRegion(word, s, i, end, o, rest, k);
    }
  }

  /** The region that begins at `k`: nothing at its second character is code. */
  lemma SecondIsInert(word: char -> bool, s: string, i: nat, end: nat)
    requires i < |s| && StartAt(word, s, i) == Inert(end)
    ensures i + 1 < |s| && !CodeAt(word, s, i, i + 1)
  {
    InertStep(word, s, i, end, i + 1);
    if CodeAt(word, s, end, i + 1) { CodeAtRange(word, s, end, i + 1); }
  }

  /** A region begins at `k`, as the lexer started at `i` sees it. */
  predicate RegionFrom(word: char -> bool, s: string, i: nat, k: nat)
    requires i <= k
  {
    i <= |s| && Mask(word, s, i).Some? && !CodeAt(word, s, i, k) && (k == i || CodeAt(word, s, i, k - 1))
  }

  lemma RegionBehindCode(word: char -> bool, s: string, i: nat, k: nat)
    requires i <= k < |s| && RegionFrom(word, s, i, k) && StartAt(word, s, i) == Code
    ensures i < k && RegionFrom(word, s, i + 1, k)
  {
    CodeStep(word, s, i, k);
    CodeStep(word, s, i, k - 1);
  }

  lemma RegionBehindRegion(word: char -> bool, s: string, i: nat, end: nat, k: nat)
    requires i < k < |s| && RegionFrom(word, s, i, k) && StartAt(word, s, i) == Inert(end)
    ensures end < k && RegionFrom(word, s, end, k)
  {
    InertStep(word, s, i, end, k);
    InertStep(word, s, i, end, k - 1);
    CodeAtRange(word, s, end, k - 1);
  }

  /** A masked region is at least two characters long. */
  lemma {:induction false} RegionsAreLong(word: char -> bool, s: string, i: nat, k: nat)
    requires i <= k < |s| && Mask(word, s, i).Some?
    requires !CodeAt(word, s, i, k) && (k == i || CodeAt(word, s, i, k - 1))
    ensures k + 1 < |s| && !CodeAt(word, s, i, k + 1)
    decreases |s| - i
  {
    match StartAt(word, s, i)
    case Code =>
      RegionBehindCode(word, s, i, k);
      RegionsAreLong(word, s, i + 1, k);
      CodeStep(word, s, i, k + 1);
    case Inert(end) =>
      if k == i {
        SecondIsInert(word, s, i, end);
      } else {
        RegionBehindRegion(word, s, i, end, k);
        RegionsAreLong(word, s, end, k);
        InertStep(word, s, i, end, k + 1);
      }
  }

  // ----- Masking twice -----

  /** `o` is `s` with everything but code blanked, and never exactly one character blanked alone. */
  ghost predicate MaskOf(word: char -> bool, s: string, o: string) {
    && |o| == |s|
    && (forall k :: 0 <= k < |s| ==> o[k] == if CodeAt(word, s, 0, k) then s[k] else Blank(s[k]))
    && (forall k :: 0 <= k < |s| && CodeAt(word, s, 0, k) ==> StartAt(word, s, k) == Code)
    && (forall k {:trigger CodeAt(word, s, 0, k)} :: 0 < k < |s| && !CodeAt(word, s, 0, k) && CodeAt(word, s, 0, k - 1)
          ==> k + 1 < |s| && !CodeAt(word, s, 0, k + 1))
  }

  lemma MaskIsMaskOf(word: char -> bool, s: string, o: string)
    requires Mask(word, s, 0) == Some(o)
    ensures MaskOf(word, s, o)
  {
    forall k: nat | k <= |s|
      ensures |o| == |s| && (k < |s| ==> o[k] == if CodeAt(word, s, 0, k) then s[k] else Blank(s[k]))
    {
      MaskedText(word, s, 0, o, k);
    }
    forall k | 0 <= k < |s| && CodeAt(word, s, 0, k) ensures StartAt(word, s, k) == Code {
      CodeAtRange(word, s, 0, k);
    }
    forall k | 0 < k < |s| && !CodeAt(word, s, 0, k) && CodeAt(word, s, 0, k - 1)
      ensures k + 1 < |s| && !CodeAt(word, s, 0, k + 1)
    {
      RegionsAreLong(word, s, 0, k);
    }
  }

  /** A visible character of the masked text is code at the same place in the original. */
  lemma Visible(word: char -> bool, s: string, o: string, k: nat)
    requires MaskOf(word, s, o) && k < |o| && o[k] != ' ' && o[k] != '\n'
    ensures s[k] == o[k] && CodeAt(word, s, 0, k) && StartAt(word, s, k) == Code
  {
  }

  lemma NoQuotes(word: char -> bool, s: string, o: string, k: nat)
    requires MaskOf(word, s, o) && k < |o|
    ensures o[k] != QUOTE
  {
    if o[k] == QUOTE { Visible(word, s, o, k); }
  }

  lemma NoComments(word: char -> bool, s: string, o: string, k: nat)
    requires MaskOf(word, s, o) && k < |o|
    ensures !PairAt(o, '/', '/', k) && !PairAt(o, '/', '*', k)
  {
  }

  lemma {:induction false} SkipHexAgrees(a: string, b: string, p: nat)
    requires p <= |a| == |b|
    requires SkipHexDigits(b, p) < |b|
    requires forall k :: p <= k <= SkipHexDigits(b, p) ==> a[k] == b[k]
    ensures SkipHexDigits(a, p) == SkipHexDigits(b, p)
    decreases |a| - p
  {
    if SkipHexDigits(b, p) != p { SkipHexAgrees(a, b, p + 1); }
  }

  /** Code on both sides of a position makes it code: no region is one character long. */
  lemma Surrounded(word: char -> bool, s: string, o: string, k: nat)
    requires MaskOf(word, s, o) && 0 < k && k + 1 < |o|
    requires CodeAt(word, s, 0, k - 1) && CodeAt(word, s, 0, k + 1)
    ensures CodeAt(word, s, 0, k) && o[k] == s[k]
  {
  }

  /** A char literal reads the same in any text that agrees with it. */
  lemma CharReadsAlike(a: string, b: string, i: nat, end: nat)
    requires |a| == |b| && i < |b| && CharEnd(b, i) == Some(end)
    requires forall k :: i <= k < end ==> a[k] == b[k]
    ensures CharEnd(a, i) == Some(end)
  {
    if b[i + 1] == '\\' && b[i + 2] == 'u' && b[i + 3] == LEFT_BRACE { SkipHexAgrees(a, b, i + 4); }
  }

  /** The one character of a char literal that may be anything: its only or its escaped one. */
  function Free(o: string, i: nat): nat
    requires i + 1 < |o|
  {
    if o[i + 1] == '\\' then i + 2 else i + 1
  }

  lemma CharIsVisible(o: string, i: nat, end: nat, k: nat)
    requires i < |o| && o[i] == APOSTROPHE && CharEnd(o, i) == Some(end)
    requires i <= k < end && (k != Free(o, i) || end > k + 2)
    ensures o[k] != ' ' && o[k] != '\n'
  {
  }

  /** What reads as a char literal after masking was code all along. */
  lemma CharWasCode(word: char -> bool, s: string, o: string, i: nat, end: nat)
    requires MaskOf(word, s, o) && i < |o| && o[i] == APOSTROPHE && CharEnd(o, i) == Some(end)
    ensures forall k :: i <= k < end ==> s[k] == o[k]
  {
    var f := Free(o, i);
    forall k | i <= k < end && (k != f || end > k + 2) ensures s[k] == o[k] && CodeAt(word, s, 0, k) {
      CharIsVisible(o, i, end, k);
      Visible(word, s, o, k);
    }
    if end == f + 2 { Surrounded(word, s, o, f); }
  }

  /** Blanking never leaves a new char literal: a region is too long to fit between two quotes. */
  lemma NoCharLiterals(word: char -> bool, s: string, o: string, i: nat)
    requires MaskOf(word, s, o) && i < |o| && o[i] == APOSTROPHE
    ensures CharEnd(o, i) == None
  {
    if CharEnd(o, i).Some? {
      CharWasCode(word, s, o, i, CharEnd(o, i).value);
      CharReadsAlike(s, o, i, CharEnd(o, i).value);
      Visible(word, s, o, i);
    }
  }

  lemma MaskedIsCode(word: char -> bool, s: string, o: string, i: nat)
    requires MaskOf(word, s, o) && i < |o|
    ensures StartAt(word, o, i) == Code
  {
    NoComments(word, s, o, i);
    forall k | 0 <= k < |o| ensures o[k] != QUOTE { NoQuotes(word, s, o, k); }
    if o[i] == APOSTROPHE { NoCharLiterals(word, s, o, i); }
  }

  lemma {:induction false} AllCode(word: char -> bool, s: string, o: string, i: nat)
    requires MaskOf(word, s, o) && i <= |o|
    ensures Mask(word, o, i) == Some(o[i..])
    decreases |o| - i
  {
    if i < |o| {
      MaskedIsCode(word, s, o, i);
      AllCode(word, s, o, i + 1);
      assert o[i..] == [o[i]] + o[i + 1..];
    }
  }

  /** Masking a masked text neither fails nor changes it. */
  lemma MaskIsIdempotent(word: char -> bool, s: string, o: string)
    requires Mask(word, s, 0) == Some(o)
    ensures Mask(word, o, 0) == Some(o)
  {
    MaskIsMaskOf(word, s, o);
    AllCode(word, s, o, 0);
    assert o[0..] == o;
  }
}
