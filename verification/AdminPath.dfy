/**
 Admin request paths: percent-encoding of one segment, building a path below the service URL,
 and normalisation of paths. Bytes are characters below 256; all texts here are byte strings.
 */
module AdminPath {
  import opened Sequences
  import opened Wrappers

  type Byte = c: char | c as int < 256
  type Bytes = seq<Byte>

  // ----- Encoding -----

  /** `pchar` of RFC 3986 without the percent-encoded form. */
  predicate IsPchar(b: Byte) {
    || 'A' <= b <= 'Z' || 'a' <= b <= 'z' || '0' <= b <= '9'
    || b == '-' || b == '.' || b == '_' || b == '~'
    || b == '!' || b == '$' || b == '&' || b == '\'' || b == '(' || b == ')' || b == '*'
    || b == '+' || b == ',' || b == ';' || b == '='
    || b == ':' || b == '@'
  }

  function Hex(k: int): Byte
    requires 0 <= k < 16
  {
    if k < 10 then ('0' as int + k) as char else ('A' as int + k - 10) as char
  }

  function EncodeByte(b: Byte): Bytes {
    if IsPchar(b) then [b] else ['%', Hex(b as int / 16), Hex(b as int % 16)]
  }

  function Encode(segment: Bytes): Bytes {
    if segment == [] then [] else EncodeByte(segment[0]) + Encode(segment[1..])
  }

  method PushEncodedSegment(out: Bytes, segment: Bytes) returns (r: Bytes)
    ensures r == out + Encode(segment)
  {
    r := out;
    assert segment[0..] == segment;
    for i := 0 to |segment|
      invariant r + Encode(segment[i..]) == out + Encode(segment)
    {
      var b := segment[i];
      assert segment[i..][1..] == segment[i + 1..];
      Associate(r, EncodeByte(b), Encode(segment[i + 1..]));
      if IsPchar(b) {
        r := r + [b];
      } else {
        r := r + ['%', Hex(b as int / 16), Hex(b as int % 16)];
      }
    }
  }

  // ----- Decoding (section 2.1 of RFC 3986) -----

  function HexValue(b: Byte): Option<int> {
    if '0' <= b <= '9' then Some(b as int - '0' as int)
    else if 'A' <= b <= 'F' then Some(b as int - 'A' as int + 10)
    else if 'a' <= b <= 'f' then Some(b as int - 'a' as int + 10)
    else None
  }

  /** Percent-decoding; none when a percent sign is not followed by two hexadecimal digits. */
  function Decode(s: Bytes): Option<Bytes> {
    if s == [] then Some([])
    else if s[0] != '%' then
      var rest := Decode(s[1..]);
      if rest.None? then None else Some([s[0]] + rest.value)
    else if |s| < 3 || HexValue(s[1]).None? || HexValue(s[2]).None? then None
    else
      var rest := Decode(s[3..]);
      if rest.None? then None
      else Some([(16 * HexValue(s[1]).value + HexValue(s[2]).value) as char] + rest.value)
  }

  /** The digits of section 2.1 of RFC 3986, in upper or lower case. */
  lemma HexValues(k: int)
    requires 0 <= k < 16
    ensures HexValue("0123456789ABCDEF"[k]) == Some(k) && HexValue("0123456789abcdef"[k]) == Some(k)
  {
  }

  lemma HexRoundTrip(k: int)
    requires 0 <= k < 16
    ensures HexValue(Hex(k)) == Some(k)
  {
  }

  lemma DecodeFirst(b: Byte, rest: Bytes)
    ensures Decode(EncodeByte(b) + rest) == if Decode(rest).None? then None else Some([b] + Decode(rest).value)
  {
    var s := EncodeByte(b) + rest;
    if IsPchar(b) {
      assert s[1..] == rest;
    } else {
      assert s[3..] == rest;
      HexRoundTrip(b as int / 16);
      HexRoundTrip(b as int % 16);
    }
  }

  /** Decoding undoes encoding, for every byte string. */
  lemma {:induction false} DecodeEncode(segment: Bytes)
    ensures Decode(Encode(segment)) == Some(segment)
  {
    if segment != [] {
      DecodeEncode(segment[1..]);
      DecodeFirst(segment[0], Encode(segment[1..]));
      assert segment == [segment[0]] + segment[1..];
    }
  }

  lemma {:induction false} EncodedHasNoSlash(segment: Bytes)
    ensures '/' !in Encode(segment)
  {
    if segment != [] { EncodedHasNoSlash(segment[1..]); }
  }

  /** The bytes that stand for themselves: unreserved, sub-delims, and `:` and `@`. */
  lemma PcharClasses(b: Byte)
    ensures var n := b as int;
            var alpha, digit := 0x41 <= n <= 0x5a || 0x61 <= n <= 0x7a, 0x30 <= n <= 0x39;
            IsPchar(b) <==> alpha || digit || b in "-._~" || b in "!$&'()*+,;=" || b in ":@"
  {
  }

  lemma HexDigits(k: int)
    requires 0 <= k < 16
    ensures Hex(k) == "0123456789ABCDEF"[k]
  {
  }

  /**
   What an encoding consists of, byte by byte, in the character classes of RFC 3986: unreserved
   (section 2.3), sub-delims (section 2.2), `:` and `@` (section 3.3) are copied, and every other
   byte becomes a triplet with upper-case digits (section 2.1).
   */
  lemma EncodedByte(b: Byte, rest: Bytes)
    ensures var n := b as int;
            var alpha, digit := 0x41 <= n <= 0x5a || 0x61 <= n <= 0x7a, 0x30 <= n <= 0x39;
            var copied := alpha || digit || b in "-._~" || b in "!$&'()*+,;=" || b in ":@";
            var triplet := ['%', "0123456789ABCDEF"[n / 16], "0123456789ABCDEF"[n % 16]];
            Encode([b] + rest) == (if copied then [b] else triplet) + Encode(rest)
  {
    assert ([b] + rest)[1..] == rest;
    PcharClasses(b);
    HexDigits(b as int / 16);
    HexDigits(b as int % 16);
  }

  lemma {:induction false} CopiedAsIs(s: Bytes)
    requires forall k :: 0 <= k < |s| ==> 'a' <= s[k] <= 'z'
    ensures Encode(s) == s
  {
    if s != [] {
      CopiedAsIs(s[1..]);
      assert s == [s[0]] + s[1..];
    }
  }

  // ----- Paths as lists of segments -----

  /** Each segment with a slash before it. */
  function Join(segs: seq<Bytes>): Bytes {
    if segs == [] then [] else ['/'] + segs[0] + Join(segs[1..])
  }

  /** The first slash at or after `i`, or the end. */
  function NextSlash(p: Bytes, i: nat): (e: nat)
    requires i <= |p|
    ensures i <= e <= |p|
    ensures forall k :: i <= k < e ==> p[k] != '/'
    ensures e < |p| ==> p[e] == '/'
    decreases |p| - i
  {
    if i < |p| && p[i] != '/' then NextSlash(p, i + 1) else i
  }

  predicate Rooted(p: Bytes) {
    p == [] || p[0] == '/'
  }

  /** The segments of a path that is empty or starts with a slash. */
  function Split(p: Bytes): seq<Bytes>
    requires Rooted(p)
    decreases |p|
  {
    if p == [] then []
    else
      var e := NextSlash(p, 1);
      [p[1..e]] + Split(p[e..])
  }

  predicate SlashFree(segs: seq<Bytes>) {
    forall i :: 0 <= i < |segs| ==> '/' !in segs[i]
  }

  lemma NextSlashAt(p: Bytes, i: nat, e: nat)
    requires i <= e <= |p| && (forall k :: i <= k < e ==> p[k] != '/') && (e < |p| ==> p[e] == '/')
    ensures NextSlash(p, i) == e
  {
  }

  lemma {:induction false} SplitJoin(segs: seq<Bytes>)
    requires SlashFree(segs)
    ensures Rooted(Join(segs)) && Split(Join(segs)) == segs
  {
    if segs != [] {
      var p, rest := Join(segs), Join(segs[1..]);
      var e := 1 + |segs[0]|;
      SplitJoin(segs[1..]);
      assert p[1..e] == segs[0] && p[e..] == rest;
      assert forall k :: 1 <= k < e ==> p[k] == segs[0][k - 1];
      NextSlashAt(p, 1, e);
    }
  }

  lemma {:induction false} SplitSlashFree(p: Bytes)
    requires Rooted(p)
    ensures SlashFree(Split(p))
    decreases |p|
  {
    if p != [] { SplitSlashFree(p[NextSlash(p, 1)..]); }
  }

  lemma CutAtSlash(p: Bytes, e: nat)
    requires 1 <= e <= |p| && p[0] == '/'
    ensures p == ['/'] + p[1..e] + p[e..]
  {
  }

  lemma {:induction false} JoinSplit(p: Bytes)
    requires Rooted(p)
    ensures Join(Split(p)) == p
    decreases |p|
  {
    if p != [] {
      var e := NextSlash(p, 1);
      var first, rest := p[1..e], p[e..];
      JoinSplit(rest);
      JoinCons(first, Split(rest));
      CutAtSlash(p, e);
    }
  }

  lemma JoinCons(first: Bytes, segs: seq<Bytes>)
    ensures Join([first] + segs) == ['/'] + first + Join(segs)
  {
    assert ([first] + segs)[1..] == segs;
  }

  lemma {:induction false} JoinConcat(a: seq<Bytes>, b: seq<Bytes>)
    ensures Join(a + b) == Join(a) + Join(b)
  {
    if a == [] {
      assert a + b == b;
    } else {
      JoinConcat(a[1..], b);
      Associate(['/'] + a[0], Join(a[1..]), Join(b));
      assert (a + b)[1..] == a[1..] + b && (a + b)[0] == a[0];
    }
  }

  // ----- Building a path -----

  datatype Family = V2 | V3

  function FamilyName(f: Family): Bytes {
    if f.V2? then "v2" else "v3"
  }

  /** The base path of a family below the path of the service URL, as the client builder joins it. */
  function BasePath(service: Bytes, f: Family): Bytes {
    (if |service| > 0 && service[|service| - 1] == '/' then service else service + "/") + "admin/" + FamilyName(f) + "/"
  }

  function TrimSlashes(p: Bytes): Bytes {
    if |p| > 0 && p[|p| - 1] == '/' then TrimSlashes(p[..|p| - 1]) else p
  }

  function EncodeAll(segs: seq<Bytes>): (r: seq<Bytes>)
    ensures |r| == |segs| && forall i :: 0 <= i < |segs| ==> r[i] == Encode(segs[i])
  {
    seq(|segs|, i requires 0 <= i < |segs| => Encode(segs[i]))
  }

  /** `url_for` on the path component. */
  method UrlPath(base: Bytes, segments: seq<Bytes>) returns (path: Bytes)
    ensures path == PathOf(base, segments)
  {
    path := TrimSlashes(base);
    assert segments[0..] == segments;
    for i := 0 to |segments|
      invariant path + Join(EncodeAll(segments[i..])) == PathOf(base, segments)
    {
      JoinFirst(path, segments[i..]);
      path := path + ['/'];
      path := PushEncodedSegment(path, segments[i]);
    }
  }

  lemma JoinFirst(path: Bytes, segs: seq<Bytes>)
    requires segs != []
    ensures path + Join(EncodeAll(segs)) == path + ['/'] + Encode(segs[0]) + Join(EncodeAll(segs[1..]))
  {
    assert EncodeAll(segs)[1..] == EncodeAll(segs[1..]);
  }

  function PathOf(base: Bytes, segs: seq<Bytes>): Bytes {
    TrimSlashes(base) + Join(EncodeAll(segs))
  }

  /** Decoding every segment; none when one of them is malformed. */
  function DecodeAll(segs: seq<Bytes>): Option<seq<Bytes>> {
    if segs == [] then Some([])
    else
      var first, rest := Decode(segs[0]), DecodeAll(segs[1..]);
      if first.None? || rest.None? then None else Some([first.value] + rest.value)
  }

  lemma {:induction false} DecodeEncodeAll(segs: seq<Bytes>)
    ensures DecodeAll(EncodeAll(segs)) == Some(segs)
  {
    if segs != [] {
      DecodeEncode(segs[0]);
      DecodeEncodeAll(segs[1..]);
      assert EncodeAll(segs)[1..] == EncodeAll(segs[1..]) && EncodeAll(segs)[0] == Encode(segs[0]);
      assert segs == [segs[0]] + segs[1..];
    }
  }

  lemma EncodeAllSlashFree(segs: seq<Bytes>)
    ensures SlashFree(EncodeAll(segs))
  {
    forall i | 0 <= i < |segs| ensures '/' !in EncodeAll(segs)[i] { EncodedHasNoSlash(segs[i]); }
  }

  /** Splitting the part of a path after the base and decoding gives the segments back. */
  lemma PathRoundTrip(base: Bytes, segs: seq<Bytes>)
    ensures var tail := PathOf(base, segs)[|TrimSlashes(base)|..];
            Rooted(tail) && DecodeAll(Split(tail)) == Some(segs)
  {
    var tail := PathOf(base, segs)[|TrimSlashes(base)|..];
    assert tail == Join(EncodeAll(segs));
    EncodeAllSlashFree(segs);
    SplitJoin(EncodeAll(segs));
    DecodeEncodeAll(segs);
  }

  /** The service path without one trailing slash. */
  function Stem(service: Bytes): Bytes {
    if |service| > 0 && service[|service| - 1] == '/' then service[..|service| - 1] else service
  }

  lemma StemAndSlash(service: Bytes)
    ensures (if |service| > 0 && service[|service| - 1] == '/' then service else service + "/") == Stem(service) + ['/']
  {
  }

  lemma TrimmedBase(service: Bytes, f: Family)
    ensures TrimSlashes(BasePath(service, f))
         == (if |service| > 0 && service[|service| - 1] == '/' then service else service + "/") + "admin/" + FamilyName(f)
  {
    var b := BasePath(service, f);
    assert b[..|b| - 1]
        == (if |service| > 0 && service[|service| - 1] == '/' then service else service + "/") + "admin/" + FamilyName(f);
  }

  lemma BelowStem(stem: Bytes, slash: Bytes, admin: Bytes, name: Bytes)
    ensures stem + slash + admin + name == stem + (slash + admin + name)
  {
  }

  lemma FamilyBase(service: Bytes, f: Family)
    ensures TrimSlashes(BasePath(service, f)) == Stem(service) + (['/'] + "admin/" + FamilyName(f))
  {
    TrimmedBase(service, f);
    StemAndSlash(service);
    BelowStem(Stem(service), ['/'], "admin/", FamilyName(f));
  }

  lemma FamilyPath(service: Bytes, f: Family, base: Bytes, segs: seq<Bytes>)
    requires base == ['/'] + "admin/" + FamilyName(f)
    ensures PathOf(BasePath(service, f), segs) == Stem(service) + base + Join(EncodeAll(segs))
  {
    FamilyBase(service, f);
  }

  /** Where the requests of each family go. */
  lemma FamilyPaths(service: Bytes, segs: seq<Bytes>)
    ensures PathOf(BasePath(service, V2), segs) == Stem(service) + "/admin/v2" + Join(EncodeAll(segs))
    ensures PathOf(BasePath(service, V3), segs) == Stem(service) + "/admin/v3" + Join(EncodeAll(segs))
  {
    FamilyPath(service, V2, "/admin/v2", segs);
    FamilyPath(service, V3, "/admin/v3", segs);
  }

  /** Under one service URL a path determines its API family and its segments. */
  lemma PathsAreDistinct(service: Bytes, f: Family, a: seq<Bytes>, g: Family, b: seq<Bytes>)
    requires PathOf(BasePath(service, f), a) == PathOf(BasePath(service, g), b)
    ensures f == g && a == b
  {
    TrimmedBase(service, f);
    TrimmedBase(service, g);
    var p, q := TrimSlashes(BasePath(service, f)), TrimSlashes(BasePath(service, g));
    assert |p| == |q|;
    var path := PathOf(BasePath(service, f), a);
    assert path[..|p|] == p && path[..|q|] == q;
    assert FamilyName(f) == p[|p| - 2..] && FamilyName(g) == q[|q| - 2..];
    assert FamilyName(f)[1] == FamilyName(g)[1];
    PathRoundTrip(BasePath(service, f), a);
    PathRoundTrip(BasePath(service, g), b);
  }

  // ----- Dot-segment removal (section 5.2.4 of RFC 3986) -----

  /** The output buffer without its last segment and the slash before it. */
  function DropLast(out: Bytes): (r: Bytes)
    ensures |r| <= |out|
  {
    if out == [] then [] else if out[|out| - 1] == '/' then out[..|out| - 1] else DropLast(out[..|out| - 1])
  }

  function RemoveDotSegments(input: Bytes, out: Bytes): Bytes
    decreases |input|
  {
    if input == [] then out
    else if "../" <= input then RemoveDotSegments(input[3..], out)
    else if "./" <= input then RemoveDotSegments(input[2..], out)
    else if "/./" <= input then RemoveDotSegments(input[2..], out)
    else if input == "/." then RemoveDotSegments("/", out)
    else if "/../" <= input then RemoveDotSegments(input[3..], DropLast(out))
    else if input == "/.." then RemoveDotSegments("/", DropLast(out))
    else if input == "." || input == ".." then out
    else
      var e := NextSlash(input, 1);
      RemoveDotSegments(input[e..], out + input[..e])
  }

  predicate IsDot(segment: Bytes) {
    segment == "." || segment == ".."
  }

  predicate NoDots(segs: seq<Bytes>) {
    forall s :: s in segs ==> !IsDot(s)
  }

  /** Nothing is ever added, and a dot segment costs at least one byte. */
  lemma {:induction false} RemovalShrinks(input: Bytes, out: Bytes)
    ensures |RemoveDotSegments(input, out)| <= |input| + |out|
    decreases |input|
  {
    if input == [] {
    } else if "../" <= input {
      RemovalShrinks(input[3..], out);
    } else if "./" <= input || "/./" <= input {
      RemovalShrinks(input[2..], out);
    } else if input == "/." {
      RemovalShrinks("/", out);
    } else if "/../" <= input {
      RemovalShrinks(input[3..], DropLast(out));
    } else if input == "/.." {
      RemovalShrinks("/", DropLast(out));
    } else if input == "." || input == ".." {
    } else {
      var e := NextSlash(input, 1);
      RemovalShrinks(input[e..], out + input[..e]);
    }
  }

  /** The dot rules apply to a rooted path exactly when its first segment is a dot segment. */
  lemma FirstSegment(p: Bytes)
    requires p != [] && p[0] == '/'
    ensures var first := p[1..NextSlash(p, 1)];
            && (first == "." <==> "/./" <= p || p == "/.")
            && (first == ".." <==> "/../" <= p || p == "/..")
            && !("../" <= p) && !("./" <= p) && p != "." && p != ".."
  {
    var e := NextSlash(p, 1);
    var first := p[1..e];
    if "/./" <= p { assert p[..3][1] == '.' && p[..3][2] == '/'; NextSlashAt(p, 1, 2); }
    if "/../" <= p { assert p[..4][1] == '.' && p[..4][2] == '.' && p[..4][3] == '/'; NextSlashAt(p, 1, 3); }
    if p == "/." { NextSlashAt(p, 1, 2); }
    if p == "/.." { NextSlashAt(p, 1, 3); }
    if first == "." { assert e == 2 && p[1] == first[0]; assert e < |p| ==> p[..3] == "/./"; }
    if first == ".." { assert e == 3 && p[1] == first[0] && p[2] == first[1]; assert e < |p| ==> p[..4] == "/../"; }
    if |p| >= 3 { assert p[..3][0] == '/'; }
    if |p| >= 2 { assert p[..2][0] == '/'; }
  }

  lemma PlainStep(p: Bytes, out: Bytes)
    requires p != [] && p[0] == '/' && !IsDot(p[1..NextSlash(p, 1)])
    ensures RemoveDotSegments(p, out) == RemoveDotSegments(p[NextSlash(p, 1)..], out + p[..NextSlash(p, 1)])
  {
    FirstSegment(p);
  }

  lemma DotStep(p: Bytes, out: Bytes)
    requires p != [] && p[0] == '/' && IsDot(p[1..NextSlash(p, 1)])
    ensures |RemoveDotSegments(p, out)| < |p| + |out|
  {
    FirstSegment(p);
    if p[1..NextSlash(p, 1)] == "." {
      RemovalShrinks(if p == "/." then "/" else p[2..], out);
    } else {
      RemovalShrinks(if p == "/.." then "/" else p[3..], DropLast(out));
    }
  }

  lemma SplitFirst(p: Bytes)
    requires p != [] && p[0] == '/'
    ensures var e := NextSlash(p, 1);
            NoDots(Split(p)) <==> !IsDot(p[1..e]) && NoDots(Split(p[e..]))
  {
    var e := NextSlash(p, 1);
    assert Split(p) == [p[1..e]] + Split(p[e..]);
  }

  lemma Regained(p: Bytes, e: nat, out: Bytes)
    requires e <= |p|
    ensures (out + p[..e]) + p[e..] == out + p && |out + p[..e]| + |p[e..]| == |out| + |p|
  {
    Rejoin(p, e, e);
    Associate(out, p[..e], p[e..]);
  }

  /** A rooted path is a fixed point of dot-segment removal exactly when it has no dot segment. */
  lemma {:induction false} FixedPoint(p: Bytes, out: Bytes)
    requires Rooted(p)
    ensures NoDots(Split(p)) ==> RemoveDotSegments(p, out) == out + p
    ensures !NoDots(Split(p)) ==> |RemoveDotSegments(p, out)| < |out| + |p|
    decreases |p|
  {
    if p != [] {
      SplitFirst(p);
      var e := NextSlash(p, 1);
      if IsDot(p[1..e]) {
        DotStep(p, out);
      } else {
        PlainStep(p, out);
        FixedPoint(p[e..], out + p[..e]);
        Regained(p, e, out);
      }
    }
  }

  /** Normalising a rooted path changes nothing if and only if it has no dot segment. */
  lemma NormalisationIsIdentity(p: Bytes)
    requires Rooted(p)
    ensures RemoveDotSegments(p, []) == p <==> NoDots(Split(p))
  {
    FixedPoint(p, []);
    assert [] + p == p;
  }

  /** The segments a walk along `segs` ends with: `.` stays, `..` goes back, and a last one of them leaves a slash. */
  function Resolve(kept: seq<Bytes>, segs: seq<Bytes>): seq<Bytes>
    decreases |segs|
  {
    if segs == [] then kept
    else
      var next :=
        if segs[0] == "." then kept
        else if segs[0] == ".." then (if kept == [] then [] else kept[..|kept| - 1])
        else kept + [segs[0]];
      if |segs| == 1 && IsDot(segs[0]) then next + [""] else Resolve(next, segs[1..])
  }

  lemma {:induction false} DropSegment(out: Bytes, s: Bytes)
    requires '/' !in s
    ensures DropLast(out + ['/'] + s) == out
    decreases |s|
  {
    var t := out + ['/'] + s;
    if s == [] {
      assert t[..|t| - 1] == out;
    } else {
      DropSegment(out, s[..|s| - 1]);
      assert t[..|t| - 1] == out + ['/'] + s[..|s| - 1] && t[|t| - 1] == s[|s| - 1];
    }
  }

  lemma JoinSnoc(kept: seq<Bytes>, s: Bytes)
    ensures Join(kept + [s]) == Join(kept) + ['/'] + s
  {
    JoinConcat(kept, [s]);
    JoinCons(s, []);
    assert [s] + [] == [s] && ['/'] + s + [] == ['/'] + s;
  }

  lemma DropIsPop(kept: seq<Bytes>)
    requires SlashFree(kept)
    ensures DropLast(Join(kept)) == Join(if kept == [] then [] else kept[..|kept| - 1])
  {
    if kept != [] {
      var init, s := kept[..|kept| - 1], kept[|kept| - 1];
      assert kept == init + [s];
      JoinSnoc(init, s);
      DropSegment(Join(init), s);
    }
  }

  /** The rules of the algorithm for the first segment of a rooted path. */
  lemma DotRules(p: Bytes, out: Bytes)
    requires p != [] && p[0] == '/'
    ensures var e := NextSlash(p, 1);
            && (p[1..e] == "." ==> RemoveDotSegments(p, out) == RemoveDotSegments(if e == |p| then "/" else p[e..], out))
            && (p[1..e] == ".." ==> RemoveDotSegments(p, out) == RemoveDotSegments(if e == |p| then "/" else p[e..], DropLast(out)))
  {
    FirstSegment(p);
  }

  lemma SlashAlone(out: Bytes)
    ensures RemoveDotSegments("/", out) == out + ['/']
  {
    var p: Bytes := "/";
    assert NextSlash(p, 1) == 1 && p[1..1] == [];
    PlainStep(p, out);
    assert p[..1] == p && p[1..] == [];
  }

  lemma LastSlash(kept: seq<Bytes>)
    ensures RemoveDotSegments("/", Join(kept)) == Join(kept + [""])
  {
    SlashAlone(Join(kept));
    JoinSnoc(kept, []);
  }

  lemma FirstOfPath(p: Bytes)
    requires p != [] && p[0] == '/'
    ensures var e := NextSlash(p, 1);
            Split(p) == [p[1..e]] + Split(p[e..]) && Rooted(p[e..]) && '/' !in p[1..e] && p[..e] == ['/'] + p[1..e]
  {
  }

  lemma ResolveFirst(kept: seq<Bytes>, first: Bytes, segs: seq<Bytes>)
    ensures !IsDot(first) ==> Resolve(kept, [first] + segs) == Resolve(kept + [first], segs)
    ensures first == "." ==> Resolve(kept, [first] + segs) == if segs == [] then kept + [""] else Resolve(kept, segs)
    ensures var popped := if kept == [] then [] else kept[..|kept| - 1];
            first == ".." ==> Resolve(kept, [first] + segs) == if segs == [] then popped + [""] else Resolve(popped, segs)
  {
    assert ([first] + segs)[1..] == segs;
  }

  lemma DotsAreDropped(p: Bytes, kept: seq<Bytes>, next: seq<Bytes>)
    requires p != [] && p[0] == '/' && SlashFree(kept) && IsDot(p[1..NextSlash(p, 1)])
    requires next == if p[1..NextSlash(p, 1)] == "." then kept else if kept == [] then [] else kept[..|kept| - 1]
    ensures var rest := p[NextSlash(p, 1)..];
            RemoveDotSegments(p, Join(kept)) == RemoveDotSegments(if rest == [] then "/" else rest, Join(next))
  {
    DotRules(p, Join(kept));
    DropIsPop(kept);
  }

  lemma KeptOneMore(p: Bytes, kept: seq<Bytes>, e: nat)
    requires 1 <= e <= |p| && p[0] == '/' && '/' !in p[1..e] && SlashFree(kept)
    ensures Join(kept + [p[1..e]]) == Join(kept) + p[..e] && SlashFree(kept + [p[1..e]])
  {
    JoinSnoc(kept, p[1..e]);
    assert p[..e] == ['/'] + p[1..e];
  }

  /** Removing dot segments from a rooted path walks along its segments. */
  lemma {:induction false} RemovalResolves(p: Bytes, kept: seq<Bytes>)
    requires Rooted(p) && SlashFree(kept)
    ensures RemoveDotSegments(p, Join(kept)) == Join(Resolve(kept, Split(p)))
    decreases |p|
  {
    if p != [] {
      var e := NextSlash(p, 1);
      var first, rest := p[1..e], p[e..];
      FirstOfPath(p);
      ResolveFirst(kept, first, Split(rest));
      if IsDot(first) {
        var next := if first == "." then kept else if kept == [] then [] else kept[..|kept| - 1];
        DotsAreDropped(p, kept, next);
        if rest == [] { LastSlash(next); } else { RemovalResolves(rest, next); }
      } else {
        PlainStep(p, Join(kept));
        KeptOneMore(p, kept, e);
        RemovalResolves(rest, kept + [first]);
      }
    }
  }

  /** The algorithm on whole paths. */
  lemma NormalisedPath(p: Bytes)
    requires Rooted(p)
    ensures RemoveDotSegments(p, []) == Join(Resolve([], Split(p)))
  {
    RemovalResolves(p, []);
  }

  // ----- Names that stay where they are put -----

  datatype NameError = EmptySegment | DotSegment | EncodedSlash | ControlByte | WrongShape

  predicate OccursAt(s: Bytes, p: Bytes, i: int) {
    0 <= i && i + |p| <= |s| && s[i..i + |p|] == p
  }

  predicate Contains(s: Bytes, p: Bytes) {
    exists i :: 0 <= i <= |s| && OccursAt(s, p, i)
  }

  function ValidateSegment(segment: Bytes): Option<NameError> {
    if segment == [] then Some(EmptySegment)
    else if segment == "." || segment == ".." then Some(DotSegment)
    else if Contains(segment, "%2F") || Contains(segment, "%2f") then Some(EncodedSlash)
    else if exists b :: b in segment && (b < ' ' || b == 0x7f as char) then Some(ControlByte)
    else None
  }

  predicate ValidSegment(segment: Bytes) {
    ValidateSegment(segment) == None
  }

  /** An escaped slash, `%2F` or `%2f`, somewhere in the segment. */
  predicate HasEscapedSlash(segment: Bytes) {
    exists i :: 0 <= i < |segment| - 2 && segment[i] == '%' && segment[i + 1] == '2' && (segment[i + 2] == 'F' || segment[i + 2] == 'f')
  }

  /** A control byte of ASCII somewhere in the segment. */
  predicate HasControl(segment: Bytes) {
    exists i :: 0 <= i < |segment| && (segment[i] as int < 0x20 || segment[i] as int == 0x7f)
  }

  lemma EscapeAt(s: Bytes, i: nat, c: Byte)
    requires i + 2 < |s|
    ensures OccursAt(s, ['%', '2', c], i) <==> s[i] == '%' && s[i + 1] == '2' && s[i + 2] == c
  {
    var t := s[i..i + 3];
    assert t[0] == s[i] && t[1] == s[i + 1] && t[2] == s[i + 2];
  }

  lemma EscapeOccurs(s: Bytes, c: Byte)
    ensures Contains(s, ['%', '2', c]) <==> exists i :: 0 <= i < |s| - 2 && s[i] == '%' && s[i + 1] == '2' && s[i + 2] == c
  {
    if Contains(s, ['%', '2', c]) {
      var i :| 0 <= i <= |s| && OccursAt(s, ['%', '2', c], i);
      EscapeAt(s, i, c);
    }
    if i :| 0 <= i < |s| - 2 && s[i] == '%' && s[i + 1] == '2' && s[i + 2] == c { EscapeAt(s, i, c); }
  }

  lemma EscapedSlashOccurs(s: Bytes)
    ensures Contains(s, "%2F") || Contains(s, "%2f") <==> HasEscapedSlash(s)
  {
    assert "%2F" == ['%', '2', 'F'] && "%2f" == ['%', '2', 'f'];
    EscapeOccurs(s, 'F');
    EscapeOccurs(s, 'f');
  }

  /** The names that are refused, and why: the first reason that applies is given. */
  lemma RefusedNames(segment: Bytes)
    ensures ValidateSegment(segment) == Some(EmptySegment) <==> |segment| == 0
    ensures ValidateSegment(segment) == Some(DotSegment) <==> segment == "." || segment == ".."
    ensures ValidateSegment(segment) == Some(EncodedSlash) <==> HasEscapedSlash(segment)
    ensures ValidateSegment(segment) == Some(ControlByte) <==> HasControl(segment) && !HasEscapedSlash(segment)
    ensures ValidateSegment(segment) != Some(WrongShape)
  {
    EscapedSlashOccurs(segment);
    forall i | 0 <= i < |segment| ensures segment[i] in segment {}
  }

  /** The spellings of `.` and `..` that URL parsers treat as dot segments after decoding. */
  predicate ReadsAsDot(s: Bytes) {
    Decode(s) == Some(".") || Decode(s) == Some("..")
  }

  /** No encoded name is a dot segment in any spelling. */
  lemma EncodedNameIsNoDot(segment: Bytes)
    requires ValidSegment(segment)
    ensures !IsDot(Encode(segment)) && !ReadsAsDot(Encode(segment))
  {
    DecodeEncode(segment);
    DecodeDots();
  }

  lemma OnlyByte(a: Byte, rest: Bytes, c: Byte)
    ensures [a] + rest == [c] <==> rest == [] && a == c
  {
    if [a] + rest == [c] { assert ([a] + rest)[0] == a; }
  }

  lemma DecodesToOne(s: Bytes, c: Byte)
    requires s != [] && s[0] == '%'
    ensures Decode(s) == Some([c]) <==> |s| == 3 && IsTriplet(s, c)
  {
    if |s| >= 3 && HexValue(s[1]).Some? && HexValue(s[2]).Some? && Decode(s[3..]).Some? {
      DecodesToNothing(s[3..]);
      OnlyByte((16 * HexValue(s[1]).value + HexValue(s[2]).value) as char, Decode(s[3..]).value, c);
    }
  }

  predicate IsTriplet(s: Bytes, c: Byte)
    requires |s| >= 3
  {
    HexValue(s[1]).Some? && HexValue(s[2]).Some? && 16 * HexValue(s[1]).value + HexValue(s[2]).value == c as int
  }

  lemma ReadsAsItself(s: Bytes, c: Byte)
    requires s == [] || s[0] != '%'
    ensures Decode(s) == Some([c]) <==> s == [c]
  {
    if s != [] {
      assert s == [s[0]] + s[1..];
      OnlyByte(s[0], s[1..], c);
      if Decode(s[1..]).Some? {
        DecodesToNothing(s[1..]);
        OnlyByte(s[0], Decode(s[1..]).value, c);
      } else {
        assert s[1..] != [];
      }
    }
  }

  lemma DecodesToNothing(s: Bytes)
    requires Decode(s).Some?
    ensures Decode(s).value == [] <==> s == []
  {
  }

  lemma DotTriplet(s: Bytes)
    requires |s| == 3 && s[0] == '%'
    ensures IsTriplet(s, '.') <==> s == "%2E" || s == "%2e"
  {
    assert s == [s[0], s[1], s[2]];
  }

  /** The spellings of a dot: itself, `%2E` and `%2e`. */
  lemma DotSpellings(s: Bytes)
    ensures Decode(s) == Some(".") <==> s == "." || s == "%2E" || s == "%2e"
  {
    assert "." == ['.'];
    if s != [] && s[0] == '%' {
      DecodesToOne(s, '.');
      if |s| == 3 { DotTriplet(s); }
    } else {
      ReadsAsItself(s, '.');
    }
  }

  lemma DecodeDots()
    ensures Decode(".") == Some(".") && Decode("..") == Some("..")
  {
    assert "."[1..] == "" && ['.'] + "" == ".";
    assert ".."[1..] == "." && ['.'] + "." == "..";
  }

  lemma SplitConcat(p: Bytes, segs: seq<Bytes>)
    requires Rooted(p) && SlashFree(segs)
    ensures Rooted(p + Join(segs)) && Split(p + Join(segs)) == Split(p) + segs
  {
    JoinSplit(p);
    SplitSlashFree(p);
    JoinConcat(Split(p), segs);
    SplitJoin(Split(p) + segs);
  }

  /**
   Every path built from validated segments on a base without dot segments is left alone by
   dot-segment removal: the request reaches the path that was built.
   */
  lemma BuiltPathIsFixed(base: Bytes, segs: seq<Bytes>)
    requires Rooted(TrimSlashes(base)) && NoDots(Split(TrimSlashes(base)))
    requires forall s :: s in segs ==> ValidSegment(s)
    ensures RemoveDotSegments(PathOf(base, segs), []) == PathOf(base, segs)
  {
    EncodeAllSlashFree(segs);
    SplitConcat(TrimSlashes(base), EncodeAll(segs));
    forall s | s in EncodeAll(segs) ensures !IsDot(s) {
      var i :| 0 <= i < |segs| && s == Encode(segs[i]);
      EncodedNameIsNoDot(segs[i]);
    }
    NormalisationIsIdentity(PathOf(base, segs));
  }

  lemma JoinTwo(a: Bytes, b: Bytes)
    ensures Join([a, b]) == ['/'] + a + (['/'] + b)
  {
    JoinCons(b, []);
    assert [b] + [] == [b] && ['/'] + b + [] == ['/'] + b;
    JoinCons(a, [b]);
    assert [a] + [b] == [a, b];
  }

  lemma Regroup(stem: Bytes, a: Bytes, name: Bytes)
    ensures (stem + ['/']) + (a + ['/']) + name == stem + (['/'] + a + (['/'] + name))
  {
  }

  /** The base is the stem of the service path with two segments behind it. */
  lemma BaseIsJoined(service: Bytes, f: Family)
    ensures TrimSlashes(BasePath(service, f)) == Stem(service) + Join(["admin", FamilyName(f)])
  {
    TrimmedBase(service, f);
    StemAndSlash(service);
    assert "admin/" == "admin" + ['/'];
    Regroup(Stem(service), "admin", FamilyName(f));
    JoinTwo("admin", FamilyName(f));
  }

  lemma StemIsRooted(service: Bytes)
    requires Rooted(service)
    ensures Rooted(Stem(service))
  {
  }

  lemma BaseSegments(service: Bytes, f: Family)
    requires Rooted(service)
    ensures var base := TrimSlashes(BasePath(service, f));
            Rooted(base) && Rooted(Stem(service)) && Split(base) == Split(Stem(service)) + ["admin", FamilyName(f)]
  {
    var segs: seq<Bytes> := ["admin", FamilyName(f)];
    StemIsRooted(service);
    BaseIsJoined(service, f);
    SplitConcat(Stem(service), segs);
  }

  lemma StemHasNoDots(service: Bytes)
    requires Rooted(service) && NoDots(Split(service))
    ensures Rooted(Stem(service)) && NoDots(Split(Stem(service)))
  {
    if Stem(service) != service {
      var last: seq<Bytes> := [""];
      assert Join(last) == ['/'] + "" + Join([]);
      assert service == Stem(service) + Join(last);
      SplitConcat(Stem(service), last);
      assert forall s :: s in Split(Stem(service)) ==> s in Split(service);
    }
  }

  /** The same for a client: nothing is rewritten below a service URL without dot segments. */
  lemma RequestPathIsFixed(service: Bytes, f: Family, segs: seq<Bytes>)
    requires Rooted(service) && NoDots(Split(service))
    requires forall s :: s in segs ==> ValidSegment(s)
    ensures var path := PathOf(BasePath(service, f), segs);
            RemoveDotSegments(path, []) == path
  {
    StemHasNoDots(service);
    BaseSegments(service, f);
    BuiltPathIsFixed(BasePath(service, f), segs);
  }
}
