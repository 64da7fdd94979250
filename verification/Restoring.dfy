/**
 Putting hidden abbreviations back.  A placeholder is found by its text, so literal text between two
 placeholders can be taken for one: this module says exactly when that happens and what it does.
 */
module Restoring {
  import opened Sequences
  import opened Text
  import opened Abbreviations

  // ----- When literal text is taken for a placeholder -----

  /** The tokens begin with the letters of `w` and go on with a placeholder numbered `j` or more. */
  predicate Mimics(toks: seq<Token>, w: string, j: nat) {
    toks != [] && if w == "" then toks[0].Mark? && toks[0].i >= j
                  else toks[0] == Letter(w[0]) && Mimics(toks[1..], w[1..], j)
  }

  /**
   No placeholder above `j` is followed at once by the letters of `Code(j)` and then by a placeholder
   that is not below `j`: the NUL that ends the one and the NUL that begins the other would spell `Tag(j)`.
   */
  predicate Clean(toks: seq<Token>, j: nat)
    requires j < 1000
  {
    toks == [] || ((toks[0].Mark? && toks[0].i > j ==> !Mimics(toks[1..], Code(j), j)) && Clean(toks[1..], j))
  }

  /** No placeholder is below `j`. */
  predicate AtLeast(toks: seq<Token>, j: nat) {
    forall k :: 0 <= k < |toks| && toks[k].Mark? ==> toks[k].i >= j
  }

  lemma {:induction false} MatchIsMimic(toks: seq<Token>, w: string, j: nat)
    requires Tokens(toks) && AtLeast(toks, j) && NulFree(w)
    ensures w + [NUL] <= Render(toks) <==> Mimics(toks, w, j)
  {
    if toks != [] {
      var head, rest := RenderOne(toks[0]), Render(toks[1..]);
      if w == "" {
        assert (head + rest)[0] == head[0];
        assert [NUL] <= head + rest <==> head[0] == NUL;
      } else {
        MatchIsMimic(toks[1..], w[1..], j);
        if toks[0] == Letter(w[0]) {
          assert (w + [NUL])[1..] == w[1..] + [NUL] && (head + rest)[1..] == rest;
          assert w + [NUL] <= head + rest <==> w[1..] + [NUL] <= rest;
        } else if w + [NUL] <= head + rest {
          assert (w + [NUL])[0] == (head + rest)[0];
        }
      }
    }
  }

  lemma DecimalDigits(i: nat)
    requires i < 1000
    ensures i == 100 * (i / 100) + 10 * (i / 10 % 10) + i % 10
  {
  }

  lemma DigitsDiffer(m: nat, n: nat)
    requires m < 10 && n < 10 && m != n
    ensures Digit(m) != Digit(n)
  {
  }

  lemma SomeDigitDiffers(a: nat, b: nat, c: nat, x: nat, y: nat, z: nat)
    requires a < 10 && b < 10 && c < 10 && x < 10 && y < 10 && z < 10
    requires a != x || b != y || c != z
    ensures [Digit(a), Digit(b), Digit(c)] != [Digit(x), Digit(y), Digit(z)]
  {
    var s, t := [Digit(a), Digit(b), Digit(c)], [Digit(x), Digit(y), Digit(z)];
    assert s[0] == Digit(a) && s[1] == Digit(b) && s[2] == Digit(c);
    assert t[0] == Digit(x) && t[1] == Digit(y) && t[2] == Digit(z);
    if a != x { DigitsDiffer(a, x); } else if b != y { DigitsDiffer(b, y); } else { DigitsDiffer(c, z); }
  }

  lemma CodesDiffer(i: nat, j: nat)
    requires i < 1000 && j < 1000 && i != j
    ensures Code(i) != Code(j)
  {
    DecimalDigits(i);
    DecimalDigits(j);
    SomeDigitDiffers(i / 100, i / 10 % 10, i % 10, j / 100, j / 10 % 10, j % 10);
    assert Code(i)[4..] == [Digit(i / 100), Digit(i / 10 % 10), Digit(i % 10)];
    assert Code(j)[4..] == [Digit(j / 100), Digit(j / 10 % 10), Digit(j % 10)];
  }

  // ----- Replacing a placeholder, from the left -----

  /** A search for something that begins with NUL passes over a text without NUL. */
  lemma {:induction false} PassLetters(y: string, s: string, p: string, r: string)
    requires NulFree(y) && p != "" && p[0] == NUL
    ensures Replace(y + s, p, r) == y + Replace(s, p, r)
  {
    if y == "" {
      assert y + s == s;
    } else {
      PassLetters(y[1..], s, p, r);
      assert (y + s)[1..] == y[1..] + s && (y + s)[0] == y[0];
    }
  }

  /** Another placeholder is passed up to the NUL that ends it. */
  lemma PassTag(i: nat, j: nat, s: string, r: string)
    requires i < 1000 && j < 1000 && i != j
    ensures Replace(Tag(i) + s, Tag(j), r) == [NUL] + Code(i) + Replace([NUL] + s, Tag(j), r)
  {
    var t := Tag(i) + s;
    CodesDiffer(i, j);
    assert t[1..8] == Code(i) && Tag(j)[1..8] == Code(j);
    assert t[1..] == Code(i) + ([NUL] + s) && t[0] == NUL;
    PassLetters(Code(i), [NUL] + s, Tag(j), r);
  }

  lemma FoundTag(j: nat, s: string, r: string)
    requires j < 1000
    ensures Replace(Tag(j) + s, Tag(j), r) == r + Replace(s, Tag(j), r)
  {
    assert (Tag(j) + s)[|Tag(j)|..] == s;
  }

  /** A NUL that does not begin the placeholder is passed; one that does is replaced with what follows. */
  lemma AtNul(j: nat, s: string, r: string)
    requires j < 1000
    ensures !(Code(j) + [NUL] <= s) ==> Replace([NUL] + s, Tag(j), r) == [NUL] + Replace(s, Tag(j), r)
    ensures Code(j) + [NUL] <= s ==> r <= Replace([NUL] + s, Tag(j), r)
  {
    var t := [NUL] + s;
    assert t[1..] == s && Tag(j)[1..] == Code(j) + [NUL];
    if Tag(j) <= t { assert Tag(j)[1..] <= t[1..]; }
    if Code(j) + [NUL] <= s { assert Tag(j) == [NUL] + (Code(j) + [NUL]); }
  }

  lemma RenderSingle(token: Token)
    requires IsToken(token)
    ensures Render([token]) == RenderOne(token)
  {
    assert [token][1..] == [] && Render([]) == "" && RenderOne(token) + "" == RenderOne(token);
  }

  lemma PassOtherTag(i: nat, j: nat, s: string, w: string)
    requires i < 1000 && j < 1000 && i != j && !(Code(j) + [NUL] <= s)
    ensures Replace(Tag(i) + s, Tag(j), w) == Tag(i) + Replace(s, Tag(j), w)
  {
    PassTag(i, j, s, w);
    AtNul(j, s, w);
    TagParts(i, Replace(s, Tag(j), w));
    Associate([NUL], Code(i), [NUL] + Replace(s, Tag(j), w));
  }

  /** One token passed over or put back, when nothing behind it is taken for the placeholder. */
  lemma Passed(token: Token, j: nat, s: string, w: string)
    requires IsToken(token) && j < 1000 && NulFree(w)
    requires token.Mark? && token.i != j ==> !(Code(j) + [NUL] <= s)
    ensures Replace(RenderOne(token) + s, Tag(j), w)
         == Render(if token == Mark(j) then Letters(w) else [token]) + Replace(s, Tag(j), w)
  {
    RenderSingle(token);
    match token
    case Letter(c) =>
      PassLetters([c], s, Tag(j), w);
    case Mark(i) =>
      if i == j {
        FoundTag(j, s, w);
        RenderLetters(w);
      } else {
        PassOtherTag(i, j, s, w);
      }
  }

  /** Where nothing mimics a placeholder, replacing its text is putting the abbreviation back. */
  lemma {:induction false} ShowOneIsReplace(toks: seq<Token>, w: string, j: nat)
    requires Tokens(toks) && AtLeast(toks, j) && NulFree(w) && j < 1000 && Clean(toks, j)
    ensures Replace(Render(toks), Tag(j), w) == Render(ShowOne(toks, w, j))
  {
    if toks != [] {
      var rest := toks[1..];
      ShowOneIsReplace(rest, w, j);
      MatchIsMimic(rest, Code(j), j);
      Passed(toks[0], j, Render(rest), w);
      RenderConcat(if toks[0] == Mark(j) then Letters(w) else [toks[0]], ShowOne(rest, w, j));
    }
  }

  lemma {:induction false} ShowOneKeepsMeaning(table: seq<string>, toks: seq<Token>, j: nat)
    requires j < |table|
    ensures Meaning(table, ShowOne(toks, table[j], j)) == Meaning(table, toks)
  {
    if toks != [] {
      ShowOneKeepsMeaning(table, toks[1..], j);
      if toks[0] == Mark(j) {
        MeaningConcat(table, Letters(table[j]), ShowOne(toks[1..], table[j], j));
        MeaningOfLetters(table, table[j]);
      }
    }
  }

  lemma {:induction false} ShowOneMarks(toks: seq<Token>, w: string, used: seq<nat>)
    requires used != [] && Ascending(used) && MarksIn(toks, used)
    ensures MarksIn(ShowOne(toks, w, used[0]), used[1..])
  {
    if toks != [] {
      ShowOneMarks(toks[1..], w, used);
      LettersHaveNoMark(w);
    }
  }

  // ----- Restoring one abbreviation neither makes nor removes a mimicry of a later one -----

  lemma {:induction false} LettersAreNoMimic(v: string, toks: seq<Token>, w: string, j: nat)
    requires '.' in v && '.' !in w
    ensures !Mimics(Letters(v) + toks, w, j)
  {
    var all := Letters(v) + toks;
    assert all[0] == Letter(v[0]) && all[1..] == Letters(v[1..]) + toks;
    if w != "" && v[0] == w[0] {
      assert '.' in v[1..];
      LettersAreNoMimic(v[1..], toks, w[1..], j);
    }
  }

  lemma {:induction false} ShowOneMimics(toks: seq<Token>, v: string, i: nat, w: string, j: nat)
    requires i < j && '.' in v && '.' !in w
    ensures Mimics(ShowOne(toks, v, i), w, j) <==> Mimics(toks, w, j)
  {
    if toks != [] {
      var rest := ShowOne(toks[1..], v, i);
      if toks[0] == Mark(i) {
        LettersAreNoMimic(v, rest, w, j);
      } else {
        assert ShowOne(toks, v, i)[1..] == rest;
        if w != "" { ShowOneMimics(toks[1..], v, i, w[1..], j); }
      }
    }
  }

  lemma {:induction false} LettersAreClean(v: string, toks: seq<Token>, j: nat)
    requires j < 1000
    ensures Clean(Letters(v) + toks, j) <==> Clean(toks, j)
  {
    if v == "" {
      assert Letters(v) + toks == toks;
    } else {
      LettersAreClean(v[1..], toks, j);
      FirstOfThree(Letter(v[0]), Letters(v[1..]), toks);
    }
  }

  lemma {:induction false} ShowOneClean(toks: seq<Token>, v: string, i: nat, j: nat)
    requires i < j < 1000 && '.' in v
    ensures Clean(ShowOne(toks, v, i), j) <==> Clean(toks, j)
  {
    if toks != [] {
      ShowOneClean(toks[1..], v, i, j);
      if toks[0] == Mark(i) {
        LettersAreClean(v, ShowOne(toks[1..], v, i), j);
      } else {
        assert ShowOne(toks, v, i)[1..] == ShowOne(toks[1..], v, i);
        ShowOneMimics(toks[1..], v, i, Code(j), j);
      }
    }
  }

  // ----- A mimicry leaves a NUL that nothing removes -----

  /** Seven letters and one more: a NUL in front of this begins no placeholder. */
  predicate Inert(t: string) {
    |t| >= 8 && NulFree(t[..8])
  }

  lemma InertStays(t: string, j: nat, r: string)
    requires Inert(t) && j < 1000
    ensures Replace([NUL] + t, Tag(j), r) == [NUL] + Replace(t, Tag(j), r)
    ensures Inert(Replace(t, Tag(j), r))
  {
    var rest := Replace(t[8..], Tag(j), r);
    assert t[..8][7] == t[7] && (Code(j) + [NUL])[7] == NUL;
    AtNul(j, t, r);
    PassLetters(t[..8], t[8..], Tag(j), r);
    assert t == t[..8] + t[8..];
    assert (t[..8] + rest)[..8] == t[..8];
  }

  /** Where literal text is replaced, the opening NUL of the placeholder before it becomes inert. */
  lemma Broken(i: nat, j: nat, s: string, r: string) returns (t: string)
    requires i < 1000 && j < 1000 && i != j && NulFree(r) && r != "" && Code(j) + [NUL] <= s
    ensures Inert(t) && Replace(Tag(i) + s, Tag(j), r) == [NUL] + t
  {
    PassTag(i, j, s, r);
    AtNul(j, s, r);
    var after := Replace([NUL] + s, Tag(j), r);
    t := Code(i) + after;
    assert t[..8] == Code(i) + [r[0]];
    assert [NUL] + Code(i) + after == [NUL] + t;
  }

  /** A later replacement leaves the inert NUL, or makes an earlier NUL inert in its place. */
  lemma {:induction false} InertRemains(pre: seq<Token>, t: string, j: nat, w: string)
      returns (q: seq<Token>, u: string)
    requires Tokens(pre) && Inert(t) && j < 1000 && NulFree(w) && w != ""
    ensures Tokens(q) && Inert(u)
    ensures Replace(Render(pre) + ([NUL] + t), Tag(j), w) == Render(q) + ([NUL] + u)
    decreases pre
  {
    if pre == [] {
      InertStays(t, j, w);
      assert Render(pre) + ([NUL] + t) == [NUL] + t;
      q, u := [], Replace(t, Tag(j), w);
      assert Render(q) + ([NUL] + u) == [NUL] + u;
    } else {
      var s := Render(pre[1..]) + ([NUL] + t);
      Associate(RenderOne(pre[0]), Render(pre[1..]), [NUL] + t);
      if pre[0].Mark? && pre[0].i != j && Code(j) + [NUL] <= s {
        u := Broken(pre[0].i, j, s, w);
        q := [];
        assert Render(q) + ([NUL] + u) == [NUL] + u;
      } else {
        q, u := InertRemains(pre[1..], t, j, w);
        Passed(pre[0], j, s, w);
        var head := if pre[0] == Mark(j) then Letters(w) else [pre[0]];
        RenderConcat(head, q);
        Associate(Render(head), Render(q), [NUL] + u);
        q := head + q;
      }
    }
  }

  /** Replacing a placeholder that literal text mimics leaves an inert NUL. */
  lemma {:induction false} MimicryBreaks(toks: seq<Token>, j: nat, w: string) returns (q: seq<Token>, u: string)
    requires Tokens(toks) && j < 1000 && AtLeast(toks, j) && NulFree(w) && w != "" && !Clean(toks, j)
    ensures Tokens(q) && Inert(u)
    ensures Replace(Render(toks), Tag(j), w) == Render(q) + ([NUL] + u)
    decreases toks
  {
    var s := Render(toks[1..]);
    MatchIsMimic(toks[1..], Code(j), j);
    if toks[0].Mark? && toks[0].i != j && Code(j) + [NUL] <= s {
      u := Broken(toks[0].i, j, s, w);
      q := [];
      assert Render(q) + ([NUL] + u) == [NUL] + u;
    } else {
      q, u := MimicryBreaks(toks[1..], j, w);
      Passed(toks[0], j, s, w);
      var head := if toks[0] == Mark(j) then Letters(w) else [toks[0]];
      RenderConcat(head, q);
      Associate(Render(head), Render(q), [NUL] + u);
      q := head + q;
    }
  }

  lemma {:induction false} InertForever(table: seq<string>, pre: seq<Token>, t: string, used: seq<nat>)
    requires IsTable(table) && Indices(table, used) && Tokens(pre) && Inert(t)
    ensures !NulFree(Restore(table, Render(pre) + ([NUL] + t), used))
    decreases used
  {
    if used == [] {
      assert (Render(pre) + ([NUL] + t))[|Render(pre)|] == NUL;
    } else {
      var q, u := InertRemains(pre, t, used[0], table[used[0]]);
      InertForever(table, q, u, used[1..]);
    }
  }

  // ----- Restoring as a whole -----

  predicate AllClean(toks: seq<Token>, used: seq<nat>)
    requires forall k :: 0 <= k < |used| ==> used[k] < 1000
  {
    used == [] || (Clean(toks, used[0]) && AllClean(toks, used[1..]))
  }

  lemma {:induction false} ShowOneAllClean(toks: seq<Token>, v: string, i: nat, used: seq<nat>)
    requires forall k :: 0 <= k < |used| ==> i < used[k] < 1000
    requires '.' in v
    ensures AllClean(ShowOne(toks, v, i), used) <==> AllClean(toks, used)
  {
    if used != [] {
      ShowOneClean(toks, v, i, used[0]);
      ShowOneAllClean(toks, v, i, used[1..]);
    }
  }

  lemma {:induction false} MeaningOfNoMark(table: seq<string>, toks: seq<Token>)
    requires Tokens(toks) && MarksIn(toks, [])
    ensures Render(toks) == Meaning(table, toks)
  {
    if toks != [] { MeaningOfNoMark(table, toks[1..]); }
  }

  /** The placeholders of the tokens are put back without loss exactly when nothing mimics one of them. */
  lemma {:induction false} RestoreTokens(table: seq<string>, toks: seq<Token>, used: seq<nat>)
    requires IsTable(table) && Tokens(toks)
    requires Indices(table, used) && Ascending(used) && MarksIn(toks, used)
    ensures AllClean(toks, used) ==> Restore(table, Render(toks), used) == Meaning(table, toks)
    ensures !AllClean(toks, used) ==> !NulFree(Restore(table, Render(toks), used))
    decreases used
  {
    if used == [] {
      MeaningOfNoMark(table, toks);
    } else {
      var j := used[0];
      var w := table[j];
      if Clean(toks, j) {
        var shown := ShowOne(toks, w, j);
        ShowOneIsReplace(toks, w, j);
        ShowOneKeepsMeaning(table, toks, j);
        ShowOneMarks(toks, w, used);
        ShowOneAllClean(toks, w, j, used[1..]);
        RestoreTokens(table, shown, used[1..]);
      } else {
        var q, u := MimicryBreaks(toks, j, w);
        InertForever(table, q, u, used[1..]);
      }
    }
  }

  /** No stretch of the text between two abbreviations is the code of an abbreviation restored before them. */
  predicate Unambiguous(table: seq<string>, text: string)
    requires IsTable(table)
  {
    AllClean(Hidden(table, text, |table|), Used(table, text, |table|))
  }

  /** What the text becomes when its abbreviations are hidden and put back. */
  function HideAndRestore(table: seq<string>, text: string): string
    requires IsTable(table)
  {
    Restore(table, Hide(table, text, |table|), Used(table, text, |table|))
  }

  /** The round trip: the text comes back when it is unambiguous, and with a NUL in it when it is not. */
  lemma RoundTrip(table: seq<string>, text: string)
    requires IsTable(table) && NulFree(text)
    ensures Unambiguous(table, text) ==> HideAndRestore(table, text) == text
    ensures !Unambiguous(table, text) ==> !NulFree(HideAndRestore(table, text))
  {
    HiddenIsHide(table, text, |table|);
    RestoreTokens(table, Hidden(table, text, |table|), Used(table, text, |table|));
  }

  // ----- A simple condition that suffices -----

  lemma {:induction false} MimicIsWritten(table: seq<string>, toks: seq<Token>, w: string, j: nat)
    requires Mimics(toks, w, j)
    ensures w <= Meaning(table, toks)
  {
    if w != "" { MimicIsWritten(table, toks[1..], w[1..], j); }
  }

  lemma {:induction false} CleanUnlessWritten(table: seq<string>, toks: seq<Token>, j: nat)
    requires j < 1000 && !Occurs(Meaning(table, toks), "ABBR")
    ensures Clean(toks, j)
  {
    if toks != [] {
      var rest := Meaning(table, toks[1..]);
      if Occurs(rest, "ABBR") { OccursLater(MeaningOne(table, toks[0]), rest, "ABBR"); }
      CleanUnlessWritten(table, toks[1..], j);
      assert Code(j)[..4] == "ABBR";
      if Mimics(toks[1..], Code(j), j) { MimicIsWritten(table, toks[1..], Code(j), j); }
    }
  }

  lemma {:induction false} AllCleanUnlessWritten(table: seq<string>, toks: seq<Token>, used: seq<nat>)
    requires forall k :: 0 <= k < |used| ==> used[k] < 1000
    requires !Occurs(Meaning(table, toks), "ABBR")
    ensures AllClean(toks, used)
  {
    if used != [] {
      CleanUnlessWritten(table, toks, used[0]);
      AllCleanUnlessWritten(table, toks, used[1..]);
    }
  }

  /** A text in which `ABBR` is not written is unambiguous. */
  lemma OrdinaryTextIsUnambiguous(table: seq<string>, text: string)
    requires IsTable(table) && NulFree(text) && !Occurs(text, "ABBR")
    ensures Unambiguous(table, text)
  {
    HiddenIsHide(table, text, |table|);
    AllCleanUnlessWritten(table, Hidden(table, text, |table|), Used(table, text, |table|));
  }
}
