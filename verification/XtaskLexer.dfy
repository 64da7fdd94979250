/**
 The other scanner of Rust sources in the repository, `skip_inert_region` of the xtask tool, and a
 comparison with `rust_code`, which is documented to mask the regions this one skips.

 The xtask scanner works on the bytes of a UTF-8 text. Every byte it looks for is ASCII, and no byte of
 a longer character is; so it is modelled on characters, with one test for characters of one byte.
 */
module XtaskLexer {
  import opened Wrappers
  import opened RustLexer

  // ----- Where the loops stop -----

  function LineStop(s: string, p: nat): nat
    decreases |s| - p
  {
    if p < |s| && s[p] != '\n' then LineStop(s, p + 1) else p
  }

  function CommentStop(s: string, p: nat, depth: nat): nat
    decreases |s| - p
  {
    if p >= |s| || depth == 0 then p
    else if PairAt(s, '/', '*', p) then CommentStop(s, p + 2, depth + 1)
    else if PairAt(s, '*', '/', p) then CommentStop(s, p + 2, depth - 1)
    else CommentStop(s, p + 1, depth)
  }

  function StringStop(s: string, p: nat): (r: nat)
    ensures p <= r
    decreases |s| - p
  {
    if p >= |s| then p
    else if s[p] == '\\' then StringStop(s, p + 2)
    else if s[p] == QUOTE then p + 1
    else StringStop(s, p + 1)
  }

  /** A quote with the hashes of the opening behind it. */
  predicate ClosesRaw(s: string, j: nat, hashes: nat) {
    && j < |s| && s[j] == QUOTE && j + 1 + hashes <= |s|
    && forall k :: j < k < j + 1 + hashes ==> s[k] == '#'
  }

  function RawStop(s: string, j: nat, hashes: nat): (r: nat)
    ensures j <= r
    decreases |s| - j
  {
    if j >= |s| then j else if ClosesRaw(s, j, hashes) then j + 1 + hashes else RawStop(s, j + 1, hashes)
  }

  function ApostropheFrom(s: string, k: nat): (r: nat)
    ensures k <= r
    decreases |s| - k
  {
    if k < |s| && s[k] != APOSTROPHE then ApostropheFrom(s, k + 1) else k
  }

  // ----- The scanner -----

  predicate OneByte(c: char) {
    c as int < 0x80
  }

  /** `skip_char_literal`. */
  function CharStop(s: string, i: nat): (r: Option<nat>)
    requires i < |s|
    ensures r.Some? ==> i < r.value <= |s|
  {
    var j := i + 1;
    if j >= |s| then None
    else if s[j] == '\\' then
      var k := ApostropheFrom(s, j + 2);
      Some(if k + 1 < |s| then k + 1 else |s|)
    else if j + 1 < |s| && s[j + 1] == APOSTROPHE && OneByte(s[j]) then Some(j + 2)
    else None
  }

  /** An `r`, hashes and a quote. */
  function RawAt(s: string, j: nat): (r: Option<RawOpening>)
    ensures r.Some? ==> j + 2 <= r.value.contents <= |s|
  {
    if j < |s| && s[j] == 'r' then
      var k := SkipHashes(s, j + 1);
      if k < |s| && s[k] == QUOTE then Some(RawOpening(k + 1, k - (j + 1))) else None
    else None
  }

  /** `skip_raw_or_byte_literal`. */
  function RawOrByteStop(s: string, i: nat): (r: Option<nat>)
    requires i < |s|
    ensures r.Some? ==> i < r.value
  {
    var j := if s[i] == 'b' then i + 1 else i;
    if j < |s| && s[j] == 'r' then
      var raw := RawAt(s, j);
      if raw.Some? then Some(RawStop(s, raw.value.contents, raw.value.hashes)) else None
    else if s[i] == 'b' && j < |s| && s[j] == QUOTE then Some(StringStop(s, j + 1))
    else if s[i] == 'b' && j < |s| && s[j] == APOSTROPHE then CharStop(s, j)
    else None
  }

  /** `skip_inert_region`. */
  function SkipInert(s: string, i: nat): (r: Option<nat>)
    requires i < |s|
  {
    if PairAt(s, '/', '/', i) then Some(LineStop(s, i + 2))
    else if PairAt(s, '/', '*', i) then Some(CommentStop(s, i + 2, 1))
    else if s[i] == QUOTE then Some(StringStop(s, i + 1))
    else if s[i] == 'r' || s[i] == 'b' then RawOrByteStop(s, i)
    else if s[i] == APOSTROPHE then CharStop(s, i)
    else None
  }

  method SkipStringLiteral(s: string, i: nat) returns (j: nat)
    requires i < |s|
    ensures j == StringStop(s, i + 1)
  {
    j := i + 1;
    while j < |s|
      invariant StringStop(s, j) == StringStop(s, i + 1)
    {
      if s[j] == '\\' {
        j := j + 2;
      } else if s[j] == QUOTE {
        return j + 1;
      } else {
        j := j + 1;
      }
    }
  }

  method SkipCharLiteral(s: string, i: nat) returns (r: Option<nat>)
    requires i < |s|
    ensures r == CharStop(s, i)
  {
    var j := i + 1;
    if j >= |s| { return None; }
    if s[j] == '\\' {
      var k := j + 2;
      while k < |s| && s[k] != APOSTROPHE
        invariant ApostropheFrom(s, k) == ApostropheFrom(s, j + 2)
      {
        k := k + 1;
      }
      return Some(if k + 1 < |s| then k + 1 else |s|);
    }
    return if j + 1 < |s| && s[j + 1] == APOSTROPHE && OneByte(s[j]) then Some(j + 2) else None;
  }

  method SkipRawOrByteLiteral(s: string, i: nat) returns (r: Option<nat>)
    requires i < |s|
    ensures r == RawOrByteStop(s, i)
  {
    var j := if s[i] == 'b' then i + 1 else i;
    if j < |s| && s[j] == 'r' {
      j := j + 1;
      ghost var first := j;
      var hashes := 0;
      while j < |s| && s[j] == '#'
        invariant first <= j <= |s| && hashes == j - first && SkipHashes(s, j) == SkipHashes(s, first)
      {
        hashes, j := hashes + 1, j + 1;
      }
      if j >= |s| || s[j] != QUOTE { return None; }
      j := j + 1;
      ghost var contents := j;
      while j < |s|
        invariant RawStop(s, j, hashes) == RawStop(s, contents, hashes)
      {
        if ClosesRaw(s, j, hashes) { return Some(j + 1 + hashes); }
        j := j + 1;
      }
      return Some(j);
    } else if s[i] == 'b' && j < |s| && s[j] == QUOTE {
      var end := SkipStringLiteral(s, j);
      return Some(end);
    } else if s[i] == 'b' && j < |s| && s[j] == APOSTROPHE {
      r := SkipCharLiteral(s, j);
    } else {
      return None;
    }
  }

  method SkipComment(s: string, i: nat) returns (j: nat)
    requires PairAt(s, '/', '*', i)
    ensures j == CommentStop(s, i + 2, 1)
  {
    var depth := 1;
    j := i + 2;
    while j < |s| && depth > 0
      invariant depth >= 0 && CommentStop(s, j, depth) == CommentStop(s, i + 2, 1)
      decreases |s| - j
    {
      if s[j] == '/' && j + 1 < |s| && s[j + 1] == '*' {
        depth, j := depth + 1, j + 2;
      } else if s[j] == '*' && j + 1 < |s| && s[j + 1] == '/' {
        depth, j := depth - 1, j + 2;
      } else {
        j := j + 1;
      }
    }
  }

  method SkipInertRegion(s: string, i: nat) returns (r: Option<nat>)
    requires i < |s|
    ensures r == SkipInert(s, i)
  {
    if PairAt(s, '/', '/', i) {
      var j := i + 2;
      while j < |s| && s[j] != '\n'
        invariant LineStop(s, j) == LineStop(s, i + 2)
      {
        j := j + 1;
      }
      return Some(j);
    } else if PairAt(s, '/', '*', i) {
      var j := SkipComment(s, i);
      return Some(j);
    } else if s[i] == QUOTE {
      var j := SkipStringLiteral(s, i);
      return Some(j);
    } else if s[i] == 'r' || s[i] == 'b' {
      r := SkipRawOrByteLiteral(s, i);
    } else if s[i] == APOSTROPHE {
      r := SkipCharLiteral(s, i);
    } else {
      return None;
    }
  }

  // ----- The loops and the grammar -----

  lemma {:induction false} LineStopIsFind(s: string, p: nat)
    requires p <= |s|
    ensures LineStop(s, p) == match Find(s, "\n", p) case None => |s| case Some(e) => e
    decreases |s| - p
  {
    if p < |s| {
      assert StartsWith(s, "\n", p) <==> s[p] == '\n' by { assert s[p..p + 1] == [s[p]]; }
      if s[p] != '\n' { LineStopIsFind(s, p + 1); }
    }
  }

  lemma {:induction false} StringStopIsEnd(s: string, p: nat)
    ensures match StringEnd(s, p) case Some(e) => StringStop(s, p) == e case None => StringStop(s, p) >= |s|
    decreases |s| - p
  {
    if p < |s| {
      if s[p] == '\\' {
        StringStopIsEnd(s, p + 2);
      } else if s[p] != QUOTE {
        StringStopIsEnd(s, p + 1);
      }
    }
  }

  lemma {:induction false} CommentStopIsExit(s: string, p: nat, depth: nat)
    requires p <= |s|
    ensures match Exit(s, p, depth) case Some(e) => CommentStop(s, p, depth) == e case None => CommentStop(s, p, depth) >= |s|
    decreases |s| - p
  {
    if p < |s| && depth > 0 {
      ExitStep(s, p, depth);
      if PairAt(s, '/', '*', p) {
        CommentStopIsExit(s, p + 2, depth + 1);
      } else if PairAt(s, '*', '/', p) {
        CommentStopIsExit(s, p + 2, depth - 1);
      } else {
        CommentStopIsExit(s, p + 1, depth);
      }
    }
  }

  lemma ClosesRawIsDelimiter(s: string, j: nat, hashes: nat)
    requires j < |s|
    ensures ClosesRaw(s, j, hashes) <==> StartsWith(s, Delimiter(hashes), j)
  {
    var d := Delimiter(hashes);
    assert d[0] == QUOTE && forall k :: 0 < k < |d| ==> d[k] == '#';
    if j + |d| <= |s| {
      var t := s[j..j + |d|];
      assert forall k :: 0 <= k < |d| ==> t[k] == s[j + k];
      if ClosesRaw(s, j, hashes) { assert t == d; }
      if t == d { assert forall k :: j < k < j + 1 + hashes ==> s[k] == t[k - j]; }
    }
  }

  lemma {:induction false} RawStopIsFind(s: string, j: nat, hashes: nat)
    requires j <= |s|
    ensures match Find(s, Delimiter(hashes), j)
            case Some(e) => RawStop(s, j, hashes) == e + |Delimiter(hashes)|
            case None => RawStop(s, j, hashes) >= |s|
    decreases |s| - j
  {
    if j < |s| {
      ClosesRawIsDelimiter(s, j, hashes);
      if !ClosesRaw(s, j, hashes) { RawStopIsFind(s, j + 1, hashes); }
    }
  }

  // ----- Where the two scanners part -----

  predicate InWord(word: char -> bool, s: string, i: nat)
    requires i <= |s|
  {
    i > 0 && word(s[i - 1])
  }

  /** A byte string or a byte character: only xtask counts its `b`. */
  predicate ByteLiteral(s: string, i: nat) {
    PairAt(s, 'b', QUOTE, i) || (PairAt(s, 'b', APOSTROPHE, i) && CharStop(s, i + 1).Some?)
  }

  /** A raw string that begins inside a word: only xtask takes it for one. */
  predicate RawInWord(word: char -> bool, s: string, i: nat)
    requires i < |s|
  {
    InWord(word, s, i) && (RawAt(s, i).Some? || (s[i] == 'b' && RawAt(s, i + 1).Some?))
  }

  /** A raw C string: only the script knows its `c`. */
  predicate RawCString(word: char -> bool, s: string, i: nat)
    requires i < |s|
  {
    !InWord(word, s, i) && s[i] == 'c' && RawAt(s, i + 1).Some?
  }

  /**
   Quotes on which the two disagree: an escape that begins no char literal of the script's pattern (xtask
   looks for the next quote anywhere), or one character between two quotes that is itself a quote or a
   line end (only xtask takes it) or longer than a byte (only the script does).
   */
  predicate OddCharLiteral(s: string, i: nat) {
    && i + 1 < |s| && s[i] == APOSTROPHE
    && if s[i + 1] == '\\' then forall e :: i < e <= |s| ==> !IsCharLiteral(s[i..e])
       else i + 2 < |s| && s[i + 2] == APOSTROPHE && (s[i + 1] == APOSTROPHE || s[i + 1] == '\n' || s[i + 1] as int >= 128)
  }

  /** The two scanners part at `i`; where a region never ends only the script gives up. */
  predicate PartsAt(word: char -> bool, s: string, i: nat)
    requires i < |s|
  {
    || ByteLiteral(s, i) || RawInWord(word, s, i) || RawCString(word, s, i) || OddCharLiteral(s, i)
    || StartAt(word, s, i) == Unterminated
  }

  // ----- At one position -----

  predicate Agree(a: Start, b: Option<nat>) {
    match a
    case Code => b == None
    case Inert(end) => b == Some(end)
    case Unterminated => false
  }

  /** One of the two sees code and the other a region, or the script gives up. */
  predicate Part(a: Start, b: Option<nat>) {
    a == Unterminated || (a.Code? <==> b.Some?)
  }

  lemma {:induction false} QuoteComes(s: string, k: nat, q: nat)
    requires k <= q < |s| && s[q] == APOSTROPHE && forall j :: k <= j < q ==> s[j] != APOSTROPHE
    ensures ApostropheFrom(s, k) == q
    decreases q - k
  {
    if k < q { QuoteComes(s, k + 1, q); }
  }

  /** A closed escape ends at the next quote. */
  lemma EscapeAgrees(s: string, i: nat, end: nat)
    requires i + 1 < |s| && s[i] == APOSTROPHE && s[i + 1] == '\\' && CharEnd(s, i) == Some(end)
    ensures CharStop(s, i) == Some(end)
  {
    QuoteComes(s, i + 3, end - 1);
  }

  lemma NoLiteral(s: string, i: nat)
    requires i < |s| && s[i] == APOSTROPHE
    ensures CharEnd(s, i).None? <==> forall e :: i < e <= |s| ==> !IsCharLiteral(s[i..e])
  {
    forall e | i < e <= |s| ensures CharEnd(s, i) == Some(e) <==> IsCharLiteral(s[i..e]) { CharEndIsExact(s, i, e); }
  }

  lemma CharAgrees(s: string, i: nat)
    requires i < |s| && s[i] == APOSTROPHE
    ensures !OddCharLiteral(s, i) ==> CharStop(s, i) == CharEnd(s, i)
    ensures OddCharLiteral(s, i) ==> (CharStop(s, i).Some? <==> CharEnd(s, i).None?)
  {
    NoLiteral(s, i);
    if i + 1 < |s| && s[i + 1] == '\\' && CharEnd(s, i).Some? { EscapeAgrees(s, i, CharEnd(s, i).value); }
  }

  lemma CommentAgrees(word: char -> bool, s: string, i: nat)
    requires PairAt(s, '/', '/', i) || PairAt(s, '/', '*', i)
    ensures StartAt(word, s, i) != Unterminated ==> Agree(StartAt(word, s, i), SkipInert(s, i))
  {
    LineStopIsFind(s, i + 2);
    CommentStopIsExit(s, i + 2, 1);
    ExitOnce(s, i + 2);
  }

  lemma StringAgrees(word: char -> bool, s: string, i: nat)
    requires i < |s| && s[i] == QUOTE
    ensures StartAt(word, s, i) != Unterminated ==> Agree(StartAt(word, s, i), SkipInert(s, i))
  {
    StringStopIsEnd(s, i + 1);
  }

  /** Behind a `b` the raw string would begin one further. */
  function Letter(s: string, i: nat): (j: nat)
    requires i < |s|
  {
    if s[i] == 'b' then i + 1 else i
  }

  lemma LetterOpens(word: char -> bool, s: string, i: nat)
    requires i < |s| && (s[i] == 'r' || s[i] == 'b')
    ensures RawOpen(word, s, i) == if InWord(word, s, i) then None else RawAt(s, Letter(s, i))
  {
  }

  lemma RawAgrees(word: char -> bool, s: string, i: nat, raw: RawOpening)
    requires i < |s| && (s[i] == 'r' || s[i] == 'b') && RawOpen(word, s, i) == Some(raw)
    ensures var start := StartAt(word, s, i);
            start == Unterminated || start == Inert(RawStop(s, raw.contents, raw.hashes))
  {
    RawStopIsFind(s, raw.contents, raw.hashes);
  }

  lemma NoRawIsCode(word: char -> bool, s: string, i: nat)
    requires i < |s| && (s[i] == 'r' || s[i] == 'b') && RawOpen(word, s, i) == None
    ensures StartAt(word, s, i) == Code
  {
  }

  /** At a letter xtask sees a raw string, or a byte literal, or nothing. */
  lemma LetterInXtask(s: string, i: nat)
    requires i < |s| && (s[i] == 'r' || s[i] == 'b')
    ensures match RawAt(s, Letter(s, i))
            case Some(raw) => !ByteLiteral(s, i) && SkipInert(s, i) == Some(RawStop(s, raw.contents, raw.hashes))
            case None => SkipInert(s, i).Some? <==> ByteLiteral(s, i)
  {
  }

  lemma LetterAgrees(word: char -> bool, s: string, i: nat)
    requires i < |s| && (s[i] == 'r' || s[i] == 'b')
    ensures !PartsAt(word, s, i) ==> Agree(StartAt(word, s, i), SkipInert(s, i))
    ensures PartsAt(word, s, i) ==> Part(StartAt(word, s, i), SkipInert(s, i))
  {
    LetterOpens(word, s, i);
    LetterInXtask(s, i);
    var raw := RawOpen(word, s, i);
    if raw.Some? { RawAgrees(word, s, i, raw.value); } else { NoRawIsCode(word, s, i); }
  }

  /** At every position the scanners see the same exactly when none of the patterns begins there. */
  lemma OnePosition(word: char -> bool, s: string, i: nat)
    requires i < |s|
    ensures !PartsAt(word, s, i) ==> Agree(StartAt(word, s, i), SkipInert(s, i))
    ensures PartsAt(word, s, i) ==> Part(StartAt(word, s, i), SkipInert(s, i))
  {
    if PairAt(s, '/', '/', i) || PairAt(s, '/', '*', i) {
      CommentAgrees(word, s, i);
    } else if s[i] == QUOTE {
      StringAgrees(word, s, i);
    } else if s[i] == 'r' || s[i] == 'b' {
      LetterAgrees(word, s, i);
    } else if s[i] == APOSTROPHE {
      CharAgrees(s, i);
    }
  }

  // ----- Over a whole text -----

  datatype Region = Region(from: nat, end: nat)

  lemma SkipsForward(s: string, i: nat)
    requires i < |s| && SkipInert(s, i).Some?
    ensures i < SkipInert(s, i).value
  {
    LineForward(s, i + 2);
    CommentForward(s, i + 2, 1);
  }

  lemma {:induction false} LineForward(s: string, p: nat)
    ensures p <= LineStop(s, p)
    decreases |s| - p
  {
    if p < |s| && s[p] != '\n' { LineForward(s, p + 1); }
  }

  lemma {:induction false} CommentForward(s: string, p: nat, depth: nat)
    ensures p <= CommentStop(s, p, depth)
    decreases |s| - p
  {
    if p < |s| && depth > 0 {
      if PairAt(s, '/', '*', p) {
        CommentForward(s, p + 2, depth + 1);
      } else if PairAt(s, '*', '/', p) {
        CommentForward(s, p + 2, depth - 1);
      } else {
        CommentForward(s, p + 1, depth);
      }
    }
  }

  /** The regions a caller such as the search for clock reads steps over from `i` on. */
  function XtaskRegions(s: string, i: nat): seq<Region>
    decreases |s| - i
  {
    if i >= |s| then []
    else
      var next := SkipInert(s, i);
      if next.None? then XtaskRegions(s, i + 1)
      else
        SkipsForward(s, i);
        [Region(i, next.value)] + XtaskRegions(s, next.value)
  }

  /** The regions the script masks from `i` on; none when it gives up. */
  function ScriptRegions(word: char -> bool, s: string, i: nat): Option<seq<Region>>
    requires i <= |s|
    decreases |s| - i
  {
    if i == |s| then Some([])
    else
      match StartAt(word, s, i)
      case Code => ScriptRegions(word, s, i + 1)
      case Inert(end) =>
        var rest := ScriptRegions(word, s, end);
        if rest.None? then None else Some([Region(i, end)] + rest.value)
      case Unterminated => None
  }

  /** The scanners part at no position that the script visits. */
  predicate NeverParts(word: char -> bool, s: string, i: nat)
    requires i <= |s|
    decreases |s| - i
  {
    i == |s| ||
    (!PartsAt(word, s, i) &&
     match StartAt(word, s, i)
     case Code => NeverParts(word, s, i + 1)
     case Inert(end) => NeverParts(word, s, end)
     case Unterminated => false)
  }

  lemma {:induction false} XtaskRegionsStart(s: string, i: nat)
    ensures XtaskRegions(s, i) != [] ==> XtaskRegions(s, i)[0].from >= i
    decreases |s| - i
  {
    if i < |s| && SkipInert(s, i).None? { XtaskRegionsStart(s, i + 1); }
  }

  lemma {:induction false} ScriptRegionsStart(word: char -> bool, s: string, i: nat)
    requires i <= |s|
    ensures var rs := ScriptRegions(word, s, i); rs.Some? && rs.value != [] ==> rs.value[0].from >= i
    decreases |s| - i
  {
    if i < |s| && StartAt(word, s, i) == Code { ScriptRegionsStart(word, s, i + 1); }
  }

  lemma SameTail(r: Region, a: seq<Region>, b: seq<Region>)
    ensures [r] + a == [r] + b <==> a == b
  {
    assert ([r] + a)[1..] == a && ([r] + b)[1..] == b;
  }

  /** The script masks exactly the regions xtask steps over if and only if it visits none of the patterns. */
  lemma {:induction false} SameRegions(word: char -> bool, s: string, i: nat)
    requires i <= |s|
    ensures ScriptRegions(word, s, i) == Some(XtaskRegions(s, i)) <==> NeverParts(word, s, i)
    decreases |s| - i
  {
    if i < |s| {
      OnePosition(word, s, i);
      if PartsAt(word, s, i) {
        XtaskRegionsStart(s, i + 1);
        ScriptRegionsStart(word, s, i + 1);
      } else {
        match StartAt(word, s, i)
        case Code => SameRegions(word, s, i + 1);
        case Inert(end) =>
          SameRegions(word, s, end);
          if ScriptRegions(word, s, end).Some? {
            SameTail(Region(i, end), ScriptRegions(word, s, end).value, XtaskRegions(s, end));
          }
      }
    }
  }

  // ----- The regions are what is masked -----

  predicate Covered(rs: seq<Region>, k: nat) {
    rs != [] && (rs[0].from <= k < rs[0].end || Covered(rs[1..], k))
  }

  lemma CoveredFirst(r: Region, rs: seq<Region>, k: nat)
    ensures Covered([r] + rs, k) <==> r.from <= k < r.end || Covered(rs, k)
  {
    assert ([r] + rs)[1..] == rs;
  }

  lemma {:induction false} CoveredIsLater(word: char -> bool, s: string, i: nat, k: nat)
    requires i <= |s| && ScriptRegions(word, s, i).Some? && Covered(ScriptRegions(word, s, i).value, k)
    ensures i <= k < |s|
    decreases |s| - i
  {
    match StartAt(word, s, i)
    case Code => CoveredIsLater(word, s, i + 1, k);
    case Inert(end) =>
      var rest := ScriptRegions(word, s, end).value;
      CoveredFirst(Region(i, end), rest, k);
      if !(i <= k < end) { CoveredIsLater(word, s, end, k); }
  }

  /** A position is code for the script exactly when none of its regions covers it. */
  lemma {:induction false} RegionsAreMasked(word: char -> bool, s: string, i: nat, k: nat)
    requires i <= k < |s| && ScriptRegions(word, s, i).Some?
    ensures CodeAt(word, s, i, k) <==> !Covered(ScriptRegions(word, s, i).value, k)
    decreases |s| - i
  {
    match StartAt(word, s, i)
    case Code =>
      CodeStep(word, s, i, k);
      if k == i {
        if Covered(ScriptRegions(word, s, i + 1).value, k) { CoveredIsLater(word, s, i + 1, k); }
      } else {
        RegionsAreMasked(word, s, i + 1, k);
      }
    case Inert(end) =>
      var rest := ScriptRegions(word, s, end).value;
      InertStep(word, s, i, end, k);
      CoveredFirst(Region(i, end), rest, k);
      if k < end {
        if CodeAt(word, s, end, k) { CodeAtRange(word, s, end, k); }
      } else {
        RegionsAreMasked(word, s, end, k);
      }
  }

  lemma {:induction false} GivesUpTogether(word: char -> bool, s: string, i: nat)
    requires i <= |s|
    ensures Mask(word, s, i).Some? <==> ScriptRegions(word, s, i).Some?
    decreases |s| - i
  {
    if i < |s| {
      match StartAt(word, s, i)
      case Code => GivesUpTogether(word, s, i + 1);
      case Inert(end) => GivesUpTogether(word, s, end);
      case Unterminated =>
    }
  }

  /** On such texts the masked text is the text with the regions of xtask blanked. */
  lemma MaskedByXtask(word: char -> bool, s: string, k: nat) returns (o: string)
    requires NeverParts(word, s, 0) && k < |s|
    ensures Mask(word, s, 0) == Some(o) && |o| == |s|
    ensures o[k] == if Covered(XtaskRegions(s, 0), k) && s[k] != '\n' then ' ' else s[k]
  {
    SameRegions(word, s, 0);
    GivesUpTogether(word, s, 0);
    o := Mask(word, s, 0).value;
    RegionsAreMasked(word, s, 0, k);
    MaskedText(word, s, 0, o, k);
  }

  // ----- Texts on which they differ -----

  /** A byte string: xtask steps over its `b` too. */
  lemma ByteStringsDiffer(word: char -> bool, s: string)
    requires s == "b\"x\""
    ensures ScriptRegions(word, s, 0) != Some(XtaskRegions(s, 0))
  {
    assert PairAt(s, 'b', QUOTE, 0);
    SameRegions(word, s, 0);
  }

  /** Three apostrophes: a char literal for xtask, code for the script. */
  lemma ThreeApostrophesDiffer(word: char -> bool, s: string)
    requires s == [APOSTROPHE, APOSTROPHE, APOSTROPHE]
    ensures ScriptRegions(word, s, 0) != Some(XtaskRegions(s, 0))
  {
    assert OddCharLiteral(s, 0);
    SameRegions(word, s, 0);
  }
}
