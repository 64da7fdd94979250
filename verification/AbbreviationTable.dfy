/** The abbreviation table of the script, and a text whose words it does not keep. */
module AbbreviationTable {
  import opened Sequences
  import opened Text
  import opened Abbreviations
  import opened Restoring
  import opened Sentences

  const ABBREVS: seq<string> := [
    "e.g.", "i.e.", "cf.", "etc.", "vs.", "viz.", "al.", "approx.", "ca.",
    "Mr.", "Mrs.", "Ms.", "Dr.", "Prof.", "Jr.", "Sr.",
    "Inc.", "Ltd.", "Co.", "St.", "Ave.",
    "U.S.", "U.K.", "E.U.", "D.C.",
    "a.m.", "p.m.", "A.M.", "P.M.",
    "Ph.D.", "M.D.", "B.S.", "B.A.", "M.S.", "M.A.",
    "No.", "Vol.", "Ch.", "Fig.", "Eq.", "Sec."
  ]

  /** An order the script may use: the longest first; entries of one length come in any order. */
  predicate IsOrderOf(entries: seq<string>, table: seq<string>) {
    && |table| == |entries|
    && (forall k :: 0 <= k < |table| ==> table[k] in entries)
    && (forall w :: w in entries ==> w in table)
    && (forall i, j :: 0 <= i < j < |table| ==> |table[i]| >= |table[j]|)
  }

  predicate IsOrder(table: seq<string>) {
    IsOrderOf(ABBREVS, table)
  }

  predicate Longest(table: seq<string>) {
    forall i, j :: 0 <= i < j < |table| ==> |table[i]| >= |table[j]|
  }

  lemma {:induction false} PutIn(table: seq<string>, w: string) returns (r: seq<string>)
    requires Longest(table)
    ensures Longest(r) && |r| == |table| + 1 && forall x :: x in r <==> x in table || x == w
    ensures forall x :: x in r ==> x in table || x == w
  {
    if table == [] || |w| >= |table[0]| {
      r := [w] + table;
    } else {
      var rest := PutIn(table[1..], w);
      r := [table[0]] + rest;
      assert table == [table[0]] + table[1..];
      forall i, j | 0 <= i < j < |r| ensures |r[i]| >= |r[j]| {
        if i == 0 {
          assert r[j] in rest;
          if r[j] in table[1..] { var k :| 0 <= k < |table[1..]| && table[1..][k] == r[j]; }
        }
      }
    }
  }

  /** There always is such an order. */
  lemma {:induction false} OrderExists(entries: seq<string>) returns (table: seq<string>)
    ensures IsOrderOf(entries, table)
  {
    if entries == [] {
      table := [];
    } else {
      var rest := OrderExists(entries[1..]);
      table := PutIn(rest, entries[0]);
      assert entries == [entries[0]] + entries[1..];
      forall k | 0 <= k < |table| ensures table[k] in entries { assert table[k] in table; }
    }
  }

  /** What every entry looks like. */
  predicate IsEntry(w: string) {
    && 3 <= |w|
    && NulFree(w) && w[|w| - 1] == '.'
    && (w[|w| - 3] == 'c' && w[|w| - 2] == 'f' ==> w == "cf.")
    && (|w| >= 7 ==> w == "approx.")
  }

  predicate AreEntries(entries: seq<string>) {
    |entries| <= 1000 && forall w :: w in entries ==> IsEntry(w)
  }

  lemma EntryInFront(k: nat)
    requires k < 20
    ensures IsEntry(ABBREVS[k])
  {
  }

  lemma EntryBehind(k: nat)
    requires 20 <= k < |ABBREVS|
    ensures IsEntry(ABBREVS[k])
  {
  }

  lemma EntryAt(k: nat)
    requires k < |ABBREVS|
    ensures IsEntry(ABBREVS[k])
  {
    if k < 20 { EntryInFront(k); } else { EntryBehind(k); }
  }

  lemma ScriptEntries()
    ensures AreEntries(ABBREVS) && "approx." in ABBREVS && "cf." in ABBREVS
  {
    forall w | w in ABBREVS ensures IsEntry(w) {
      var k :| 0 <= k < |ABBREVS| && ABBREVS[k] == w;
      EntryAt(k);
    }
    assert ABBREVS[7] == "approx." && ABBREVS[2] == "cf.";
  }

  lemma OrderOfEntries(entries: seq<string>, table: seq<string>)
    requires AreEntries(entries) && IsOrderOf(entries, table) && "approx." in entries
    ensures AreEntries(table) && IsTable(table) && table[0] == "approx."
  {
    assert "approx." in table;
    forall k | 0 <= k < |table| ensures '.' in table[k] {
      assert IsEntry(table[k]);
      assert table[k][|table[k]| - 1] == '.';
    }
  }

  // ----- Hiding, token by token -----

  /** Every dot is behind the letters c and f. */
  predicate DotsAreCf(toks: seq<Token>) {
    forall k :: 0 <= k < |toks| && toks[k] == Letter('.') ==>
      k >= 2 && toks[k - 2] == Letter('c') && toks[k - 1] == Letter('f')
  }

  lemma {:induction false} StartsAt(toks: seq<Token>, w: string, m: nat)
    requires Starts(toks, w) && m < |w|
    ensures m < |toks| && toks[m] == Letter(w[m])
  {
    if m > 0 { StartsAt(toks[1..], w[1..], m - 1); }
  }

  /** Only one entry can be found where every dot is behind c and f. */
  lemma FoundIsCf(toks: seq<Token>, k: nat, w: string)
    requires k <= |toks| && DotsAreCf(toks) && IsEntry(w) && Starts(toks[k..], w)
    ensures w == "cf." && Letter('.') in toks
  {
    var n := |w|;
    StartsAt(toks[k..], w, n - 1);
    StartsAt(toks[k..], w, n - 2);
    StartsAt(toks[k..], w, n - 3);
    assert toks[k + n - 1] == Letter('.');
    assert toks[k + n - 2] == Letter(w[n - 2]) && toks[k + n - 3] == Letter(w[n - 3]);
  }

  lemma {:induction false} OthersAreNotFound(toks: seq<Token>, k: nat, w: string, i: nat)
    requires k <= |toks| && DotsAreCf(toks) && IsEntry(w) && (w == "cf." ==> Letter('.') !in toks)
    ensures HideOne(toks[k..], w, i) == toks[k..]
    decreases |toks| - k
  {
    if k < |toks| {
      OthersAreNotFound(toks, k + 1, w, i);
      if Starts(toks[k..], w) { FoundIsCf(toks, k, w); }
      assert toks[k..] == [toks[k]] + toks[k + 1..];
    }
  }

  /** The first of the letters in front of some tokens. */
  lemma LettersFirst(w: string, toks: seq<Token>)
    requires w != ""
    ensures (Letters(w) + toks)[0] == Letter(w[0])
    ensures (Letters(w) + toks)[1..] == Letters(w[1..]) + toks
  {
    FirstOfThree(Letter(w[0]), Letters(w[1..]), toks);
  }

  lemma {:induction false} LettersStart(w: string, toks: seq<Token>)
    ensures Starts(Letters(w) + toks, w)
  {
    if w != "" {
      LettersFirst(w, toks);
      LettersStart(w[1..], toks);
    }
  }

  lemma HiddenHere(w: string, toks: seq<Token>, i: nat)
    requires w != ""
    ensures HideOne(Letters(w) + toks, w, i) == [Mark(i)] + HideOne(toks, w, i)
  {
    LettersStart(w, toks);
    assert (Letters(w) + toks)[|w|..] == toks;
  }

  lemma {:induction false} HiddenLater(v: string, toks: seq<Token>, w: string, i: nat)
    requires w != "" && w[0] !in v
    ensures HideOne(Letters(v) + toks, w, i) == Letters(v) + HideOne(toks, w, i)
  {
    var rest := HideOne(toks, w, i);
    if v == "" {
      assert Letters(v) + toks == toks && Letters(v) + rest == rest;
    } else {
      LettersFirst(v, toks);
      HiddenLater(v[1..], toks, w, i);
      Associate([Letter(v[0])], Letters(v[1..]), rest);
    }
  }

  // ----- A text: the first entry, then `x`, a literal code `y`, and `x` again -----

  function Around(w: string, x: string, y: string): string {
    w + (x + (y + x))
  }

  /** The tokens when only the first entry has been hidden. */
  function Early(x: string, y: string): seq<Token> {
    [Mark(0)] + (Letters(x) + (Letters(y) + Letters(x)))
  }

  /** The tokens when `x`, entry `c`, has been hidden too. */
  function Late(y: string, c: nat): seq<Token> {
    [Mark(0)] + ([Mark(c)] + (Letters(y) + [Mark(c)]))
  }

  lemma {:induction false} LettersConcat(a: string, b: string)
    ensures Letters(a + b) == Letters(a) + Letters(b)
  {
    if a == "" {
      assert a + b == b;
    } else {
      LettersConcat(a[1..], b);
      assert (a + b)[1..] == a[1..] + b && (a + b)[0] == a[0];
      Associate([Letter(a[0])], Letters(a[1..]), Letters(b));
    }
  }

  lemma FirstOfText(w: string, x: string, y: string)
    requires w != "" && w[0] !in x && w[0] !in y
    ensures HideOne(Letters(Around(w, x, y)), w, 0) == Early(x, y)
  {
    LettersConcat(w, x + (y + x));
    HiddenHere(w, Letters(x + (y + x)), 0);
    HiddenLater(x + (y + x), [], w, 0);
    assert Letters(x + (y + x)) + [] == Letters(x + (y + x));
    LettersConcat(x, y + x);
    LettersConcat(y, x);
  }

  lemma TwiceInText(x: string, y: string, c: nat)
    requires x != "" && x[0] !in y
    ensures HideOne(Early(x, y), x, c) == Late(y, c)
  {
    HiddenHere(x, [], c);
    assert Letters(x) + [] == Letters(x) && [Mark(c)] + HideOne([], x, c) == [Mark(c)];
    HiddenLater(y, Letters(x), x, c);
    HiddenHere(x, Letters(y) + Letters(x), c);
    assert Early(x, y)[1..] == Letters(x) + (Letters(y) + Letters(x));
  }

  lemma DotsBetween(m: Token, cf: seq<Token>, y: seq<Token>)
    requires m.Mark? && |cf| == 3 && cf[0] == Letter('c') && cf[1] == Letter('f') && Letter('.') !in y
    ensures DotsAreCf([m] + (cf + (y + cf)))
  {
    var all, n := [m] + (cf + (y + cf)), |y|;
    assert all[1] == cf[0] && all[2] == cf[1] && all[3] == cf[2];
    assert all[4..4 + n] == y;
    assert all[4 + n] == cf[0] && all[5 + n] == cf[1] && all[6 + n] == cf[2];
    assert forall k :: 4 <= k < 4 + n ==> all[k] == y[k - 4];
  }

  predicate IsCf(x: string) {
    |x| == 3 && x[0] == 'c' && x[1] == 'f' && x[2] == '.'
  }

  lemma Dots(x: string, y: string, c: nat)
    requires IsCf(x) && '.' !in y
    ensures DotsAreCf(Early(x, y)) && DotsAreCf(Late(y, c)) && Letter('.') !in Late(y, c)
  {
    LettersAt(x);
    LettersAt(y);
    assert Letter('.') !in Letters(y);
    DotsBetween(Mark(0), Letters(x), Letters(y));
  }

  lemma {:induction false} LettersAt(s: string)
    ensures forall k :: 0 <= k < |s| ==> Letters(s)[k] == Letter(s[k])
  {
    if s != "" { LettersAt(s[1..]); }
  }

  /** The other entries are not found, neither before nor after `x` has been hidden. */
  lemma NextEntry(x: string, y: string, c: nat, w: string, i: nat)
    requires IsCf(x) && '.' !in y && IsEntry(w)
    ensures w != "cf." ==> HideOne(Early(x, y), w, i) == Early(x, y)
    ensures HideOne(Late(y, c), w, i) == Late(y, c)
  {
    Dots(x, y, c);
    if w != "cf." { OthersAreNotFound(Early(x, y), 0, w, i); }
    OthersAreNotFound(Late(y, c), 0, w, i);
    assert Early(x, y)[0..] == Early(x, y) && Late(y, c)[0..] == Late(y, c);
  }

  lemma {:induction false} HiddenInTwoSteps(table: seq<string>, text: string, before: seq<Token>,
                                            behind: seq<Token>, c: nat, n: nat)
    requires IsTable(table) && 0 < c < |table| && 0 < n <= |table|
    requires HideOne(Letters(text), table[0], 0) == before && HideOne(before, table[c], c) == behind
    requires forall k :: 0 < k < c ==> HideOne(before, table[k], k) == before
    requires forall k :: c < k < |table| ==> HideOne(behind, table[k], k) == behind
    ensures Hidden(table, text, n) == if n <= c then before else behind
  {
    if n == 1 {
      assert Hidden(table, text, 0) == Letters(text);
    } else {
      HiddenInTwoSteps(table, text, before, behind, c, n - 1);
    }
  }

  /** The text as the script hides it, when `c` is where `cf.` stands in the table. */
  lemma HiddenText(table: seq<string>, y: string, c: nat)
    requires AreEntries(table) && IsTable(table) && 0 < c < |table| && table[0] != ""
    requires IsCf(table[c]) && (forall k :: 0 <= k < c ==> table[k] != "cf.")
    requires table[0][0] !in table[c] && table[0][0] !in y && '.' !in y && 'c' !in y
    ensures Hidden(table, Around(table[0], table[c], y), |table|) == Late(y, c)
  {
    var x := table[c];
    FirstOfText(table[0], x, y);
    TwiceInText(x, y, c);
    forall k | 0 < k < |table|
      ensures table[k] != "cf." ==> HideOne(Early(x, y), table[k], k) == Early(x, y)
      ensures HideOne(Late(y, c), table[k], k) == Late(y, c)
    {
      NextEntry(x, y, c, table[k], k);
    }
    HiddenInTwoSteps(table, Around(table[0], x, y), Early(x, y), Late(y, c), c, |table|);
  }

  lemma {:induction false} FirstIsUsed(table: seq<string>, text: string, n: nat)
    requires IsTable(table) && 0 < n <= |table| && table[0] <= text
    ensures Used(table, text, n) != [] && Used(table, text, n)[0] == 0
  {
    if n == 1 {
      assert Hide(table, text, 0) == text && Used(table, text, 0) == [];
    } else {
      FirstIsUsed(table, text, n - 1);
    }
  }

  lemma LateIsNotClean(c: nat)
    requires 0 < c
    ensures !Clean(Late(Code(0), c), 0)
  {
    var rest := Letters(Code(0)) + [Mark(c)];
    MimicsLetters(Code(0), c);
    assert Late(Code(0), c)[1..] == [Mark(c)] + rest && ([Mark(c)] + rest)[1..] == rest;
  }

  lemma {:induction false} MimicsLetters(w: string, c: nat)
    ensures Mimics(Letters(w) + [Mark(c)], w, 0)
  {
    if w != "" {
      MimicsLetters(w[1..], c);
      assert (Letters(w) + [Mark(c)])[1..] == Letters(w[1..]) + [Mark(c)];
    }
  }

  function FirstCf(table: seq<string>, k: nat): (r: nat)
    requires k <= |table| && "cf." in table[k..]
    ensures k <= r < |table| && table[r] == "cf." && forall m :: k <= m < r ==> table[m] != "cf."
    decreases |table| - k
  {
    if table[k] == "cf." then k else FirstCf(table, k + 1)
  }

  const LOST := "approx.cf.ABBR000cf."

  lemma LostIsText()
    ensures LOST == Around("approx.", "cf.", Code(0)) && NulFree(LOST)
    ensures 'a' !in Code(0) && 'c' !in Code(0) && 'a' !in "cf."
  {
    assert Code(0) == "ABBR000";
  }

  /** In whatever order the script tries its abbreviations, it does not keep the words of this text. */
  lemma WordsAreLost(table: seq<string>)
    requires IsOrder(table)
    ensures IsTable(table) && WordsOf(Sentences.Sentences(table, LOST)) != Words(LOST)
  {
    ScriptEntries();
    OrderOfEntries(ABBREVS, table);
    LostIsText();
    assert table[0..] == table;
    var c := FirstCf(table, 0);
    HiddenText(table, Code(0), c);
    FirstIsUsed(table, LOST, |table|);
    LateIsNotClean(c);
    SentencesKeepWords(table, LOST);
  }
}
