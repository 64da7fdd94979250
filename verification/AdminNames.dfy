/**
 The names an admin client accepts: `tenant/namespace`, `[persistent://]tenant/namespace/topic`
 and `tenant/namespace/name` of a function.
 */
module AdminNames {
  import opened Wrappers
  import opened AdminPath

  const SCHEME: Bytes := "persistent://"

  datatype Pair = Pair(tenant: Bytes, namespace: Bytes)
  datatype Triple = Triple(tenant: Bytes, namespace: Bytes, name: Bytes)

  // ----- The parsers -----

  /** `split_once('/')`. */
  function SplitOnce(s: Bytes): Option<(Bytes, Bytes)> {
    var e := NextSlash(s, 0);
    if e == |s| then None else Some((s[..e], s[e + 1..]))
  }

  function SplitNamespace(ns: Bytes): Result<Pair, NameError> {
    match SplitOnce(ns)
    case None => Err(WrongShape)
    case Some((tenant, namespace)) =>
      if tenant == [] || namespace == [] || '/' in namespace then Err(WrongShape)
      else if ValidateSegment(tenant).Some? then Err(ValidateSegment(tenant).value)
      else if ValidateSegment(namespace).Some? then Err(ValidateSegment(namespace).value)
      else Ok(Pair(tenant, namespace))
  }

  /** The three parts of `splitn(3, '/')`; a missing part is empty, the last may hold slashes. */
  function SplitInThree(s: Bytes): Triple {
    match SplitOnce(s)
    case None => Triple(s, [], [])
    case Some((tenant, rest)) =>
      match SplitOnce(rest)
      case None => Triple(tenant, rest, [])
      case Some((namespace, name)) => Triple(tenant, namespace, name)
  }

  function SplitFunctionId(id: Bytes): Result<Triple, NameError> {
    var t := SplitInThree(id);
    if t.tenant == [] || t.namespace == [] || t.name == [] || '/' in t.name then Err(WrongShape)
    else if ValidateSegment(t.tenant).Some? then Err(ValidateSegment(t.tenant).value)
    else if ValidateSegment(t.namespace).Some? then Err(ValidateSegment(t.namespace).value)
    else if ValidateSegment(t.name).Some? then Err(ValidateSegment(t.name).value)
    else Ok(t)
  }

  /** The topic parser strips one scheme and then follows the function parser's steps. */
  function SplitTopic(topic: Bytes): Result<Triple, NameError> {
    SplitFunctionId(if SCHEME <= topic then topic[|SCHEME|..] else topic)
  }

  // ----- Printing -----

  function PrintPair(p: Pair): Bytes {
    p.tenant + "/" + p.namespace
  }

  function Print(t: Triple): Bytes {
    t.tenant + "/" + (t.namespace + "/" + t.name)
  }

  /** `create_shadow_topic` prints topics with their scheme. */
  function PrintTopic(t: Triple): Bytes {
    SCHEME + Print(t)
  }

  predicate ValidName(s: Bytes) {
    ValidSegment(s) && '/' !in s
  }

  predicate ValidTriple(t: Triple) {
    ValidName(t.tenant) && ValidName(t.namespace) && ValidName(t.name)
  }

  // ----- Accepted names -----

  lemma SplitOnceAt(a: Bytes, b: Bytes)
    requires '/' !in a
    ensures SplitOnce(a + "/" + b) == Some((a, b))
  {
    var s := a + "/" + b;
    assert forall k :: 0 <= k < |a| ==> s[k] == a[k];
    NextSlashAt(s, 0, |a|);
    assert s[..|a|] == a && s[|a| + 1..] == b;
  }

  lemma SplitOnceSound(s: Bytes)
    ensures SplitOnce(s).Some? ==> s == SplitOnce(s).value.0 + "/" + SplitOnce(s).value.1 && '/' !in SplitOnce(s).value.0
    ensures SplitOnce(s).None? ==> '/' !in s
  {
    var e := NextSlash(s, 0);
    if e < |s| { assert s == s[..e] + "/" + s[e + 1..]; }
  }

  /** The namespace parser accepts exactly the prints of two valid names, and returns them. */
  lemma NamespaceAccepted(ns: Bytes, p: Pair)
    ensures SplitNamespace(ns) == Ok(p) <==> ValidName(p.tenant) && ValidName(p.namespace) && ns == PrintPair(p)
  {
    SplitOnceSound(ns);
    if '/' !in p.tenant { SplitOnceAt(p.tenant, p.namespace); }
  }

  lemma SplitInThreeAt(t: Triple)
    requires '/' !in t.tenant && '/' !in t.namespace
    ensures SplitInThree(Print(t)) == t
  {
    SplitOnceAt(t.tenant, t.namespace + "/" + t.name);
    SplitOnceAt(t.namespace, t.name);
  }

  lemma SplitInThreeSound(s: Bytes)
    ensures var t := SplitInThree(s); t.name != [] ==> s == Print(t) && '/' !in t.tenant && '/' !in t.namespace
  {
    SplitOnceSound(s);
    if SplitOnce(s).Some? { SplitOnceSound(SplitOnce(s).value.1); }
  }

  /** What is accepted is what was split, with three valid names. */
  lemma FunctionIdParts(id: Bytes, t: Triple)
    ensures SplitFunctionId(id) == Ok(t) <==> ValidTriple(t) && SplitInThree(id) == t && t.name != []
  {
  }

  /** The function parser accepts exactly the prints of three valid names, and returns them. */
  lemma FunctionIdAccepted(id: Bytes, t: Triple)
    ensures SplitFunctionId(id) == Ok(t) <==> ValidTriple(t) && id == Print(t)
  {
    FunctionIdParts(id, t);
    SplitInThreeSound(id);
    if ValidTriple(t) { SplitInThreeAt(t); }
  }

  /** Refused for its shape: not three parts, one of them empty, or a slash too many. */
  lemma FunctionIdShape(id: Bytes)
    ensures SplitFunctionId(id) == Err(WrongShape) <==>
      !exists t: Triple :: id == Print(t) && t.tenant != [] && t.namespace != [] && t.name != []
                           && '/' !in t.tenant && '/' !in t.namespace && '/' !in t.name
  {
    var u := SplitInThree(id);
    SplitInThreeSound(id);
    RefusedNames(u.tenant);
    RefusedNames(u.namespace);
    RefusedNames(u.name);
    if t: Triple :| id == Print(t) && t.tenant != [] && t.namespace != [] && t.name != []
                    && '/' !in t.tenant && '/' !in t.namespace && '/' !in t.name {
      SplitInThreeAt(t);
    }
  }

  lemma NamespaceShape(ns: Bytes)
    ensures SplitNamespace(ns) == Err(WrongShape) <==>
      !exists p: Pair :: ns == PrintPair(p) && p.tenant != [] && p.namespace != [] && '/' !in p.tenant && '/' !in p.namespace
  {
    SplitOnceSound(ns);
    if SplitOnce(ns).Some? {
      var u := SplitOnce(ns).value;
      RefusedNames(u.0);
      RefusedNames(u.1);
      if u.0 != [] && u.1 != [] && '/' !in u.1 { assert ns == PrintPair(Pair(u.0, u.1)); }
    }
    if p: Pair :| ns == PrintPair(p) && p.tenant != [] && p.namespace != [] && '/' !in p.tenant && '/' !in p.namespace {
      SplitOnceAt(p.tenant, p.namespace);
    }
  }

  /** A print of valid names never looks as if it carried the scheme. */
  lemma PrintHasNoScheme(t: Triple)
    requires ValidTriple(t)
    ensures !(SCHEME <= Print(t))
  {
    var s := Print(t);
    if |s| >= 13 && |t.tenant| == 11 { assert s[..13][12] == t.namespace[0]; }
    if |s| >= 13 && |t.tenant| < 11 { assert s[..13][|t.tenant|] == '/'; }
    if |s| >= 13 && |t.tenant| > 11 { assert s[..13][11] == t.tenant[11]; }
  }

  /** The topic parser accepts the print of three valid names, with or without the scheme, and nothing else. */
  lemma TopicAccepted(topic: Bytes, t: Triple)
    ensures SplitTopic(topic) == Ok(t) <==> ValidTriple(t) && (topic == Print(t) || topic == PrintTopic(t))
  {
    FunctionIdAccepted(topic, t);
    if SCHEME <= topic {
      var rest := topic[|SCHEME|..];
      assert topic == SCHEME + rest;
      FunctionIdAccepted(rest, t);
      if ValidTriple(t) { PrintHasNoScheme(t); }
      assert topic == PrintTopic(t) <==> rest == Print(t) by {
        assert PrintTopic(t)[|SCHEME|..] == Print(t);
      }
    } else {
      assert PrintTopic(t)[..|SCHEME|] == SCHEME;
    }
  }

  /** Printing a parsed topic canonically and parsing it again changes nothing. */
  lemma CanonicalTopic(topic: Bytes, t: Triple)
    requires SplitTopic(topic) == Ok(t)
    ensures SplitTopic(PrintTopic(t)) == Ok(t) && SplitTopic(Print(t)) == Ok(t)
  {
    TopicAccepted(topic, t);
    TopicAccepted(PrintTopic(t), t);
    TopicAccepted(Print(t), t);
  }

  /** Function ids are the topic names without the scheme. */
  lemma FunctionIdsAreBareTopics(s: Bytes, t: Triple)
    ensures SplitFunctionId(s) == Ok(t) <==> SplitTopic(s) == Ok(t) && !(SCHEME <= s)
  {
    FunctionIdAccepted(s, t);
    TopicAccepted(s, t);
    if ValidTriple(t) { PrintHasNoScheme(t); }
    assert PrintTopic(t)[..|SCHEME|] == SCHEME;
  }

  // ----- Topics and their request paths -----

  function TopicSegments(t: Triple, suffix: seq<Bytes>): seq<Bytes> {
    ["persistent", t.tenant, t.namespace, t.name] + suffix
  }

  lemma SameTopicSegments(s: Triple, t: Triple, suffix: seq<Bytes>)
    requires TopicSegments(s, suffix) == TopicSegments(t, suffix)
    ensures s == t
  {
    var x, y := TopicSegments(s, suffix), TopicSegments(t, suffix);
    assert x[1] == y[1] && x[2] == y[2] && x[3] == y[3];
  }

  lemma TopicSegmentsValid(t: Triple, suffix: seq<Bytes>)
    requires ValidTriple(t) && forall x :: x in suffix ==> ValidSegment(x)
    ensures forall x :: x in TopicSegments(t, suffix) ==> ValidSegment(x)
  {
    PersistentIsValid();
  }

  /**
   Two topic names are sent to the same path, for the same operation, exactly when they parse to
   the same topic; and no part of the path is rewritten on the way.
   */
  lemma TopicPaths(service: Bytes, f: Family, a: Bytes, s: Triple, b: Bytes, t: Triple, suffix: seq<Bytes>)
    requires SplitTopic(a) == Ok(s) && SplitTopic(b) == Ok(t)
    requires Rooted(service) && NoDots(Split(service))
    requires forall x :: x in suffix ==> ValidSegment(x)
    ensures PathOf(BasePath(service, f), TopicSegments(s, suffix)) == PathOf(BasePath(service, f), TopicSegments(t, suffix))
            <==> s == t
    ensures var path := PathOf(BasePath(service, f), TopicSegments(s, suffix));
            RemoveDotSegments(path, []) == path
  {
    TopicAccepted(a, s);
    var x, y := TopicSegments(s, suffix), TopicSegments(t, suffix);
    if PathOf(BasePath(service, f), x) == PathOf(BasePath(service, f), y) {
      PathsAreDistinct(service, f, x, f, y);
      SameTopicSegments(s, t, suffix);
    }
    TopicSegmentsValid(s, suffix);
    RequestPathIsFixed(service, f, x);
  }

  lemma JoinFour(a: Bytes, b: Bytes, c: Bytes, d: Bytes, rest: seq<Bytes>)
    ensures Join([a, b, c, d] + rest) == ['/'] + a + (['/'] + b + (['/'] + c + (['/'] + d + Join(rest))))
  {
    assert [a, b, c, d] + rest == [a] + ([b] + ([c] + ([d] + rest)));
    JoinCons(a, [b] + ([c] + ([d] + rest)));
    JoinCons(b, [c] + ([d] + rest));
    JoinCons(c, [d] + rest);
    JoinCons(d, rest);
  }

  lemma EncodeFour(a: Bytes, b: Bytes, c: Bytes, d: Bytes, rest: seq<Bytes>)
    ensures EncodeAll([a, b, c, d] + rest) == [Encode(a), Encode(b), Encode(c), Encode(d)] + EncodeAll(rest)
  {
  }

  lemma JoinBelow(top: Bytes, prefix: Bytes, a: Bytes, b: Bytes, c: Bytes, d: Bytes, rest: seq<Bytes>)
    requires top + "/" + a + "/" == prefix
    ensures top + Join([a, b, c, d] + rest) == prefix + b + "/" + c + "/" + d + Join(rest)
  {
    JoinFour(a, b, c, d, rest);
  }

  lemma PersistentIsCopied(a: Bytes)
    requires a == "persistent"
    ensures Encode(a) == a
  {
    CopiedAsIs(a);
  }

  lemma PersistentPrefix(a: Bytes) returns (prefix: Bytes)
    requires a == "persistent"
    ensures prefix == "/admin/v2/persistent/" && prefix == "/admin/v2" + "/" + a + "/"
  {
    prefix := "/admin/v2" + "/" + a + "/";
  }

  lemma BehindStem(stem: Bytes, base: Bytes, a: Bytes)
    ensures stem + base + "/" + a + "/" == stem + (base + "/" + a + "/")
  {
  }

  lemma PathOfFour(service: Bytes, a: Bytes, t: Triple, suffix: seq<Bytes>, prefix: Bytes)
    requires Encode(a) == a && prefix == "/admin/v2" + "/" + a + "/"
    ensures PathOf(BasePath(service, V2), [a, t.tenant, t.namespace, t.name] + suffix)
         == Stem(service) + prefix + Encode(t.tenant) + "/" + Encode(t.namespace) + "/" + Encode(t.name)
            + Join(EncodeAll(suffix))
  {
    FamilyPaths(service, [a, t.tenant, t.namespace, t.name] + suffix);
    EncodeFour(a, t.tenant, t.namespace, t.name, suffix);
    BehindStem(Stem(service), "/admin/v2", a);
    JoinBelow(Stem(service) + "/admin/v2", Stem(service) + prefix, a, Encode(t.tenant), Encode(t.namespace), Encode(t.name), EncodeAll(suffix));
  }

  /** The path of a topic, written out. */
  lemma TopicPath(service: Bytes, t: Triple, suffix: seq<Bytes>)
    ensures PathOf(BasePath(service, V2), TopicSegments(t, suffix))
         == Stem(service) + "/admin/v2/persistent/" + Encode(t.tenant) + "/" + Encode(t.namespace) + "/" + Encode(t.name)
            + Join(EncodeAll(suffix))
  {
    var a: Bytes := "persistent";
    PersistentIsCopied(a);
    var prefix := PersistentPrefix(a);
    PathOfFour(service, a, t, suffix, prefix);
  }

  lemma PersistentIsValid()
    ensures ValidSegment("persistent")
  {
    var s: Bytes := "persistent";
    forall i ensures !OccursAt(s, "%2F", i) && !OccursAt(s, "%2f", i) {
      if 0 <= i <= 7 { assert s[i..i + 3][0] == s[i] && s[i] != '%'; }
    }
  }
}
