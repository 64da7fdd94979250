/**
 Attribution of observed container creations to the observations of a campaign
 (`check_fixture_events`): events are collected between two marker containers, and every
 creation has to fall into the time window of exactly one observation.
 */
module FixtureEvents {
  import opened Wrappers
  import opened Totals

  // ----- Events -----

  datatype Marker = Marker(id: string, observer: string, imageId: string)
  datatype Markers = Markers(ready: Marker, end: Marker)

  /**
   A Docker event: of an unknown type or without an action, of an image, of a container but not
   a creation, a creation without exact identity, time and attributes, or a proper creation.
   */
  datatype Event =
    | UnknownEvent
    | ImageEvent
    | OtherAction
    | MalformedCreate
    | Create(id: string, observer: Option<string>, image: Option<string>, time: int)

  /** An observed creation. */
  datatype Row = Row(id: string, imageId: string, time: int)

  /** References of the frozen images (tag, digest, image id) with their image ids. */
  type References = map<string, string>

  predicate IsMarker(e: Event, m: Marker) {
    e.Create? && e.id == m.id
  }

  predicate MarkerMatches(e: Event, m: Marker)
    requires e.Create?
  {
    e.observer == Some(m.observer) && e.image == Some(m.imageId)
  }

  /**
   What is expected during a campaign: nothing but container events; of the creations, the two markers
   with their labels and images, and containers of frozen images.
   */
  predicate GoodEvent(e: Event, ms: Markers, refs: References) {
    || e == OtherAction
    || (e.Create? && e == Create(ms.ready.id, Some(ms.ready.observer), Some(ms.ready.imageId), e.time))
    || (e.Create? && e == Create(ms.end.id, Some(ms.end.observer), Some(ms.end.imageId), e.time))
    || (e.Create? && e.id !in {ms.ready.id, ms.end.id} && e.image.Some? && e.image.value in refs)
  }

  predicate IsObserved(e: Event, ms: Markers, refs: References) {
    e.Create? && e.id != ms.ready.id && e.id != ms.end.id && e.image.Some? && e.image.value in refs
  }

  /** The creations that are not markers, in order. */
  function Rows(es: seq<Event>, ms: Markers, refs: References): seq<Row> {
    if es == [] then []
    else
      var e := es[|es| - 1];
      Rows(es[..|es| - 1], ms, refs)
      + (if IsObserved(e, ms, refs) then [Row(e.id, refs[e.image.value], e.time)] else [])
  }

  /** The times at which the marker was created. */
  function MarkerTimes(es: seq<Event>, m: Marker): seq<int> {
    if es == [] then []
    else MarkerTimes(es[..|es| - 1], m) + (if IsMarker(es[|es| - 1], m) then [es[|es| - 1].time] else [])
  }

  predicate DistinctIds(rows: seq<Row>) {
    forall i, j :: 0 <= i < j < |rows| ==> rows[i].id != rows[j].id
  }

  predicate MarkersDistinct(ms: Markers) {
    ms.ready.id != ms.end.id && ms.ready.observer != ms.end.observer
  }

  /** What the collection of events has to satisfy. */
  ghost predicate Collectable(es: seq<Event>, ms: Markers, refs: References) {
    && ms.ready.id != ms.end.id && ms.ready.observer != ms.end.observer
    && (forall e :: e in es ==> GoodEvent(e, ms, refs))
    && |MarkerTimes(es, ms.ready)| == 1 && |MarkerTimes(es, ms.end)| == 1
    && MarkerTimes(es, ms.ready)[0] < MarkerTimes(es, ms.end)[0]
    && var rows := Rows(es, ms, refs);
       forall i, j :: 0 <= i < j < |rows| ==> rows[i].id != rows[j].id
  }

  datatype Collected = Collected(rows: seq<Row>, ready: int, end: int)

  /** The collection while it is under way. */
  datatype Progress = Progress(rows: seq<Row>, ready: Option<int>, end: Option<int>)

  /** The effect of one event; none when it is rejected. */
  function Step(p: Progress, e: Event, ms: Markers, refs: References): Option<Progress> {
    match e
    case OtherAction => Some(p)
    case Create(id, observer, image, time) =>
      if id == ms.ready.id then
        if !MarkerMatches(e, ms.ready) || p.ready.Some? then None else Some(p.(ready := Some(time)))
      else if id == ms.end.id then
        if !MarkerMatches(e, ms.end) || p.end.Some? then None else Some(p.(end := Some(time)))
      else if image.Some? && image.value in refs then Some(p.(rows := p.rows + [Row(id, refs[image.value], time)]))
      else None
    case _ => None
  }

  /** A marker was captured at most once, at the recorded time. */
  ghost predicate CapturedAs(es: seq<Event>, m: Marker, at: Option<int>) {
    match at
    case None => MarkerTimes(es, m) == []
    case Some(t) => MarkerTimes(es, m) == [t]
  }

  /** `p` is what the events `es` amount to, and none of them was rejected. */
  ghost predicate Read(es: seq<Event>, ms: Markers, refs: References, p: Progress) {
    && (forall e :: e in es ==> GoodEvent(e, ms, refs))
    && p.rows == Rows(es, ms, refs)
    && CapturedAs(es, ms.ready, p.ready)
    && CapturedAs(es, ms.end, p.end)
  }

  lemma Snoc(es: seq<Event>, e: Event, ms: Markers, refs: References, m: Marker)
    ensures Rows(es + [e], ms, refs)
         == Rows(es, ms, refs) + (if IsObserved(e, ms, refs) then [Row(e.id, refs[e.image.value], e.time)] else [])
    ensures MarkerTimes(es + [e], m) == MarkerTimes(es, m) + (if IsMarker(e, m) then [e.time] else [])
  {
    assert (es + [e])[..|es + [e]| - 1] == es;
  }

  /** An accepted event is good and is read. */
  lemma StepAccepts(p: Progress, e: Event, ms: Markers, refs: References, p': Progress)
    requires ms.ready.id != ms.end.id && Step(p, e, ms, refs) == Some(p')
    ensures GoodEvent(e, ms, refs)
    ensures p'.rows == p.rows + (if IsObserved(e, ms, refs) then [Row(e.id, refs[e.image.value], e.time)] else [])
    ensures if IsMarker(e, ms.ready) then p.ready == None && p'.ready == Some(e.time) else p'.ready == p.ready
    ensures if IsMarker(e, ms.end) then p.end == None && p'.end == Some(e.time) else p'.end == p.end
  {
  }

  /** A rejected event is not good, or is a marker that was there before. */
  lemma StepRejects(p: Progress, e: Event, ms: Markers, refs: References)
    requires ms.ready.id != ms.end.id && Step(p, e, ms, refs) == None && GoodEvent(e, ms, refs)
    ensures (IsMarker(e, ms.ready) && p.ready.Some?) || (IsMarker(e, ms.end) && p.end.Some?)
  {
  }

  lemma StepReads(es: seq<Event>, e: Event, ms: Markers, refs: References, p: Progress)
    requires ms.ready.id != ms.end.id && Read(es, ms, refs, p)
    ensures Step(p, e, ms, refs).Some? ==> Read(es + [e], ms, refs, Step(p, e, ms, refs).value)
    ensures Step(p, e, ms, refs).None? ==>
              || !GoodEvent(e, ms, refs)
              || |MarkerTimes(es + [e], ms.ready)| > 1
              || |MarkerTimes(es + [e], ms.end)| > 1
  {
    Snoc(es, e, ms, refs, ms.ready);
    Snoc(es, e, ms, refs, ms.end);
    var next := Step(p, e, ms, refs);
    if next.Some? {
      StepAccepts(p, e, ms, refs, next.value);
    } else if GoodEvent(e, ms, refs) {
      StepRejects(p, e, ms, refs);
    }
  }

  lemma {:induction false} TimesOnlyGrow(es: seq<Event>, i: nat, m: Marker)
    requires i <= |es|
    ensures |MarkerTimes(es[..i], m)| <= |MarkerTimes(es, m)|
    decreases |es| - i
  {
    if i < |es| {
      TimesOnlyGrow(es, i + 1, m);
      assert es[..i + 1][..i] == es[..i];
    } else {
      assert es[..i] == es;
    }
  }

  lemma RejectedStep(es: seq<Event>, i: nat, ms: Markers, refs: References, p: Progress)
    requires i < |es| && ms.ready.id != ms.end.id && Read(es[..i], ms, refs, p) && Step(p, es[i], ms, refs).None?
    ensures !Collectable(es, ms, refs)
  {
    StepReads(es[..i], es[i], ms, refs, p);
    assert es[..i + 1] == es[..i] + [es[i]];
    TimesOnlyGrow(es, i + 1, ms.ready);
    TimesOnlyGrow(es, i + 1, ms.end);
    assert es[i] in es;
  }

  method Collect(events: seq<Event>, ms: Markers, refs: References) returns (r: Option<Collected>)
    ensures r.Some? <==> Collectable(events, ms, refs)
    ensures r.Some? ==> r.value == Collected(Rows(events, ms, refs), MarkerTimes(events, ms.ready)[0], MarkerTimes(events, ms.end)[0])
  {
    if !MarkersDistinct(ms) { return None; }
    var p := Progress([], None, None);
    for i := 0 to |events|
      invariant Read(events[..i], ms, refs, p)
    {
      var next := Step(p, events[i], ms, refs);
      if next.None? {
        RejectedStep(events, i, ms, refs, p);
        return None;
      }
      StepReads(events[..i], events[i], ms, refs, p);
      assert events[..i + 1] == events[..i] + [events[i]];
      p := next.value;
    }
    assert events[..|events|] == events;
    ghost var rows := Rows(events, ms, refs);
    assert DistinctIds(p.rows) <==> forall i, j :: 0 <= i < j < |rows| ==> rows[i].id != rows[j].id;
    if p.ready.None? || p.end.None? || p.ready.value >= p.end.value || !DistinctIds(p.rows) { return None; }
    r := Some(Collected(p.rows, p.ready.value, p.end.value));
  }

  // ----- Windows -----

  datatype Scope = FixtureFree | FixtureRequired

  /** A family in a manifest: its declared policy, if explicit, and whether it has tests to run. */
  datatype Family = Family(id: string, policy: Option<Scope>, runnable: bool)

  /** A field that is absent, present but not an integer, or a time. */
  datatype Time = Absent | Malformed | At(ns: int)

  datatype Sample = Sample(family: string, scope: Option<Scope>, valid: bool, start: Time, end: Time)

  datatype Side = Side(families: seq<Family>, samples: seq<Sample>)

  /** A sample is rejected, left out of the attribution, or has a window. */
  datatype Judged = Rejected | Skipped | Window(scope: Scope, valid: bool, start: int, end: int)

  /** The manifest entry of a family; with a repeated id the last one. */
  function FamilyNamed(fs: seq<Family>, id: string): Option<Family> {
    if fs == [] then None
    else if fs[|fs| - 1].id == id then Some(fs[|fs| - 1])
    else FamilyNamed(fs[..|fs| - 1], id)
  }

  /** Everything the check asks of one sample on its own. */
  function Judge(fs: seq<Family>, s: Sample, ready: int, end: int): Judged {
    var f := FamilyNamed(fs, s.family);
    if f.None? || f.value.policy.None? then Rejected
    else
      var scope := if f.value.runnable then f.value.policy.value else FixtureFree;
      if s.scope != Some(scope) then Rejected
      else if !s.valid && s.start.Absent? then Skipped
      else if !s.start.At? || !s.end.At? || !(ready <= s.start.ns < s.end.ns <= end) then Rejected
      else Window(scope, s.valid, s.start.ns, s.end.ns)
  }

  /** The family `k` of the manifest is the one a sample is checked against: the last with its id. */
  predicate Governs(fs: seq<Family>, k: nat, s: Sample)
    requires k < |fs|
  {
    fs[k].id == s.family && forall j :: k < j < |fs| ==> fs[j].id != s.family
  }

  /** The scope a sample has to have: what its family declares, or none needed when there is nothing to run. */
  ghost predicate Scoped(fs: seq<Family>, s: Sample, scope: Scope) {
    exists k :: 0 <= k < |fs| && Governs(fs, k, s) && fs[k].policy.Some?
                && scope == (if fs[k].runnable then fs[k].policy.value else FixtureFree)
  }

  lemma {:induction false} NamedGoverns(fs: seq<Family>, s: Sample, k: nat)
    requires k < |fs| && Governs(fs, k, s)
    ensures FamilyNamed(fs, s.family) == Some(fs[k])
  {
    if k < |fs| - 1 { NamedGoverns(fs[..|fs| - 1], s, k); }
  }

  lemma {:induction false} NamedIsLast(fs: seq<Family>, s: Sample) returns (k: nat)
    requires FamilyNamed(fs, s.family).Some?
    ensures k < |fs| && Governs(fs, k, s)
  {
    k := |fs| - 1;
    if fs[k].id != s.family { k := NamedIsLast(fs[..k], s); }
  }

  lemma ScopeIsDeclared(fs: seq<Family>, s: Sample, scope: Scope)
    ensures Scoped(fs, s, scope) <==>
      var f := FamilyNamed(fs, s.family);
      f.Some? && f.value.policy.Some? && scope == if f.value.runnable then f.value.policy.value else FixtureFree
  {
    if Scoped(fs, s, scope) {
      var k :| 0 <= k < |fs| && Governs(fs, k, s) && fs[k].policy.Some?
               && scope == if fs[k].runnable then fs[k].policy.value else FixtureFree;
      NamedGoverns(fs, s, k);
    }
    if FamilyNamed(fs, s.family).Some? {
      var k := NamedIsLast(fs, s);
      NamedGoverns(fs, s, k);
    }
  }

  /**
   What each judgement means: a window is a sample with the scope of its family and two times that lie, in
   order, between the markers; a sample that is not valid and was never started is skipped if its scope is
   right; everything else is rejected.
   */
  lemma Judgements(fs: seq<Family>, s: Sample, ready: int, end: int, scope: Scope, valid: bool, a: int, b: int)
    ensures Judge(fs, s, ready, end) == Window(scope, valid, a, b) <==>
      Scoped(fs, s, scope) && s == Sample(s.family, Some(scope), valid, At(a), At(b)) && ready <= a < b <= end
    ensures Judge(fs, s, ready, end) == Skipped <==>
      s.scope.Some? && Scoped(fs, s, s.scope.value) && s.valid == false && s.start == Absent
  {
    ScopeIsDeclared(fs, s, scope);
    if s.scope.Some? { ScopeIsDeclared(fs, s, s.scope.value); }
  }

  function Judgement(fs: seq<Family>, ready: int, end: int): Sample -> Judged {
    s => Judge(fs, s, ready, end)
  }

  function JudgeAll(side: Side, ready: int, end: int): seq<Judged> {
    Map(Judgement(side.families, ready, end), side.samples)
  }

  predicate Inside(r: Row, w: Judged) {
    w.Window? && w.start <= r.time <= w.end
  }

  /** How often a row counts in a window, as a function of the window. */
  function Counts(r: Row): Judged -> nat {
    w => One(Inside(r, w))
  }

  /** The uses a window contains agree with its scope. */
  ghost predicate ScopeHolds(w: Judged, rows: seq<Row>) {
    w.Window? && w.valid ==>
      && (w.scope.FixtureRequired? ==> exists r :: r in rows && Inside(r, w))
      && (w.scope.FixtureFree? ==> forall r :: r in rows ==> !Inside(r, w))
  }

  /**
   The declarative condition: every sample is acceptable, every valid window agrees with its
   scope, and every creation lies in one and only one window.
   */
  ghost predicate Attributable(ws: seq<Judged>, rows: seq<Row>) {
    && (forall w :: w in ws ==> !w.Rejected? && ScopeHolds(w, rows))
    && (forall r :: r in rows ==> Total(Counts(r), ws) == 1)
  }

  /** The creation lies in window `k`. */
  predicate LiesIn(r: Row, ws: seq<Judged>, k: nat)
    requires k < |ws|
  {
    ws[k].Window? && ws[k].start <= r.time && r.time <= ws[k].end
  }

  lemma {:induction false} InNone(ws: seq<Judged>, r: Row)
    ensures Total(Counts(r), ws) == 0 <==> forall k: nat :: k < |ws| ==> !LiesIn(r, ws, k)
  {
    if ws != [] {
      var n := |ws| - 1;
      InNone(ws[..n], r);
      TotalSnoc(Counts(r), ws[..n], ws[n]);
      assert ws == ws[..n] + [ws[n]] && Counts(r)(ws[n]) == One(LiesIn(r, ws, n));
      forall k: nat | k < n ensures LiesIn(r, ws, k) <==> LiesIn(r, ws[..n], k) {}
    }
  }

  ghost predicate InExactlyOne(r: Row, ws: seq<Judged>) {
    exists k: nat :: k < |ws| && LiesIn(r, ws, k) && forall j: nat :: j < |ws| && j != k ==> !LiesIn(r, ws, j)
  }

  lemma OneMoreWindow(ws: seq<Judged>, r: Row)
    requires ws != []
    ensures var n := |ws| - 1;
            InExactlyOne(r, ws) <==> if LiesIn(r, ws, n) then forall k: nat :: k < n ==> !LiesIn(r, ws[..n], k)
                                     else InExactlyOne(r, ws[..n])
  {
    var n := |ws| - 1;
    forall k: nat | k < n ensures LiesIn(r, ws, k) <==> LiesIn(r, ws[..n], k) {}
    if InExactlyOne(r, ws[..n]) && !LiesIn(r, ws, n) {
      var k: nat :| k < n && LiesIn(r, ws[..n], k) && forall j: nat :: j < n && j != k ==> !LiesIn(r, ws[..n], j);
      assert LiesIn(r, ws, k);
    }
    if InExactlyOne(r, ws) && !LiesIn(r, ws, n) {
      var k: nat :| k < |ws| && LiesIn(r, ws, k) && forall j: nat :: j < |ws| && j != k ==> !LiesIn(r, ws, j);
      assert LiesIn(r, ws[..n], k);
    }
  }

  lemma {:induction false} CountedOnce(ws: seq<Judged>, r: Row)
    ensures Total(Counts(r), ws) == 1 <==> InExactlyOne(r, ws)
  {
    if ws != [] {
      var n := |ws| - 1;
      CountedOnce(ws[..n], r);
      InNone(ws[..n], r);
      TotalSnoc(Counts(r), ws[..n], ws[n]);
      assert ws == ws[..n] + [ws[n]] && Counts(r)(ws[n]) == One(LiesIn(r, ws, n));
      OneMoreWindow(ws, r);
    }
  }

  /**
   The condition in plain words: no sample is rejected, the window of a valid sample contains a creation if its
   scope requires one and none if its scope is free of them, and every creation lies in exactly one window.
   */
  lemma WhatIsAttributable(ws: seq<Judged>, rows: seq<Row>)
    ensures Attributable(ws, rows) <==>
      && (forall k :: 0 <= k < |ws| ==> ws[k] != Rejected)
      && (forall k: nat :: k < |ws| && ws[k].Window? && ws[k].valid && ws[k].scope == FixtureRequired ==>
            exists i :: 0 <= i < |rows| && LiesIn(rows[i], ws, k))
      && (forall k: nat :: k < |ws| && ws[k].Window? && ws[k].valid && ws[k].scope == FixtureFree ==>
            forall i :: 0 <= i < |rows| ==> !LiesIn(rows[i], ws, k))
      && (forall i :: 0 <= i < |rows| ==> InExactlyOne(rows[i], ws))
  {
    forall r ensures Total(Counts(r), ws) == 1 <==> InExactlyOne(r, ws) { CountedOnce(ws, r); }
    forall k: nat | k < |ws| ensures ws[k] in ws {}
    forall i: nat | i < |rows| ensures rows[i] in rows {}
  }

  /** Acceptance does not depend on the order of the samples. */
  lemma OrderDoesNotMatter(a: seq<Judged>, b: seq<Judged>, rows: seq<Row>)
    requires multiset(a) == multiset(b)
    ensures Attributable(a, rows) <==> Attributable(b, rows)
  {
    forall w ensures w in a <==> w in b { assert w in a <==> w in multiset(a); assert w in b <==> w in multiset(b); }
    forall r | r in rows ensures Total(Counts(r), a) == Total(Counts(r), b) { TotalPermutes(Counts(r), a, b); }
  }

  // ----- Attribution -----

  function Children(rows: seq<Row>, w: Judged): (cs: seq<Row>)
    ensures forall r :: r in cs <==> r in rows && Inside(r, w)
  {
    if rows == [] then []
    else
      var k := |rows| - 1;
      assert rows == rows[..k] + [rows[k]];
      Children(rows[..k], w) + (if Inside(rows[k], w) then [rows[k]] else [])
  }

  function Ids(rows: seq<Row>): (ids: set<string>)
    ensures forall id :: id in ids <==> exists r :: r in rows && r.id == id
  {
    set r | r in rows :: r.id
  }

  /** The containers credited to one window. */
  datatype Proof = Proof(window: Judged, children: seq<Row>)

  /** The proofs of the windows, in order. */
  function Proofs(ws: seq<Judged>, rows: seq<Row>): seq<Proof> {
    if ws == [] then []
    else
      var w := ws[|ws| - 1];
      Proofs(ws[..|ws| - 1], rows) + (if w.Window? then [Proof(w, Children(rows, w))] else [])
  }

  /** Where each row stands after the windows `ws`: in at most one of them, and claimed if in one. */
  ghost predicate Claimed(ws: seq<Judged>, rows: seq<Row>, claimed: set<string>) {
    && claimed <= Ids(rows)
    && (forall r :: r in rows ==> Total(Counts(r), ws) <= 1 && (r.id in claimed <==> Total(Counts(r), ws) == 1))
  }

  lemma {:induction false} TotalGrows(f: Judged -> nat, ws: seq<Judged>, i: nat)
    requires i <= |ws|
    ensures Total(f, ws[..i]) <= Total(f, ws)
    decreases |ws| - i
  {
    if i < |ws| {
      TotalGrows(f, ws, i + 1);
      TotalSnoc(f, ws[..i], ws[i]);
      assert ws[..i + 1] == ws[..i] + [ws[i]];
    } else {
      assert ws[..i] == ws;
    }
  }

  lemma SameIdSameRow(rows: seq<Row>, r: Row, s: Row)
    requires DistinctIds(rows) && r in rows && s in rows && r.id == s.id
    ensures r == s
  {
  }

  lemma ClaimStep(ws: seq<Judged>, w: Judged, rows: seq<Row>, claimed: set<string>)
    requires DistinctIds(rows) && Claimed(ws, rows, claimed)
    requires forall r :: r in Children(rows, w) ==> r.id !in claimed
    ensures Claimed(ws + [w], rows, claimed + Ids(Children(rows, w)))
  {
    var claimed' := claimed + Ids(Children(rows, w));
    forall r | r in rows
      ensures Total(Counts(r), ws + [w]) <= 1 && (r.id in claimed' <==> Total(Counts(r), ws + [w]) == 1)
    {
      TotalSnoc(Counts(r), ws, w);
      if r.id in Ids(Children(rows, w)) {
        var s :| s in Children(rows, w) && s.id == r.id;
        SameIdSameRow(rows, r, s);
      }
    }
  }

  lemma DoubleClaim(ws: seq<Judged>, i: nat, rows: seq<Row>, claimed: set<string>, r: Row)
    requires i < |ws| && Claimed(ws[..i], rows, claimed)
    requires r in rows && Inside(r, ws[i]) && r.id in claimed
    ensures !Attributable(ws, rows)
  {
    TotalSnoc(Counts(r), ws[..i], ws[i]);
    assert ws[..i + 1] == ws[..i] + [ws[i]];
    TotalGrows(Counts(r), ws, i + 1);
  }

  lemma ClaimedAll(ws: seq<Judged>, rows: seq<Row>, claimed: set<string>)
    requires Claimed(ws, rows, claimed)
    ensures claimed == Ids(rows) <==> forall r :: r in rows ==> Total(Counts(r), ws) == 1
  {
    if forall r :: r in rows ==> Total(Counts(r), ws) == 1 {
      forall id | id in Ids(rows) ensures id in claimed {
        var r :| r in rows && r.id == id;
      }
    }
  }

  method Attribute(ws: seq<Judged>, rows: seq<Row>) returns (r: Option<seq<Proof>>)
    requires DistinctIds(rows)
    ensures r.Some? <==> Attributable(ws, rows)
    ensures r.Some? ==> r.value == Proofs(ws, rows)
  {
    var claimed: set<string> := {};
    var proofs: seq<Proof> := [];
    for i := 0 to |ws|
      invariant forall w :: w in ws[..i] ==> !w.Rejected? && ScopeHolds(w, rows)
      invariant Claimed(ws[..i], rows, claimed)
      invariant proofs == Proofs(ws[..i], rows)
    {
      var w := ws[i];
      assert ws[..i + 1] == ws[..i] + [w] && ws[..i + 1][..i] == ws[..i];
      if w.Rejected? { return None; }
      var children := Children(rows, w);
      if w.Window? && w.valid && (if w.scope.FixtureRequired? then children == [] else children != []) {
        assert w.scope.FixtureFree? ==> children[0] in children;
        assert !ScopeHolds(w, rows);
        return None;
      }
      if exists c :: c in children && c.id in claimed {
        ghost var c :| c in children && c.id in claimed;
        DoubleClaim(ws, i, rows, claimed, c);
        return None;
      }
      assert children != [] ==> children[0] in children;
      ClaimStep(ws[..i], w, rows, claimed);
      claimed := claimed + Ids(children);
      if w.Window? { proofs := proofs + [Proof(w, children)]; }
    }
    assert ws[..|ws|] == ws;
    ClaimedAll(ws, rows, claimed);
    if claimed != Ids(rows) { return None; }
    r := Some(proofs);
  }

  // ----- The whole check -----

  /** The failed-build report, with whether its own fields are in order, or the observations. */
  datatype Report = BuildFailed(sound: bool) | Observed(base: Side, candidate: Side)

  /** What the check returns: the creations, and their attribution unless the build had failed. */
  datatype Evidence = Evidence(rows: seq<Row>, proofs: seq<Proof>)

  function AllJudged(report: Report, ready: int, end: int): seq<Judged>
    requires report.Observed?
  {
    JudgeAll(report.base, ready, end) + JudgeAll(report.candidate, ready, end)
  }

  /**
   The check accepts exactly the collectable events whose creations are attributable, and
   returns the attribution. After a failed build it accepts only when nothing was created.
   */
  method CheckFixtureEvents(events: seq<Event>, refs: References, report: Report, ms: Markers)
    returns (r: Option<Evidence>)
    ensures r.Some? <==>
      && Collectable(events, ms, refs)
      && var rows := Rows(events, ms, refs);
         var ready, end := MarkerTimes(events, ms.ready)[0], MarkerTimes(events, ms.end)[0];
         if report.BuildFailed? then report.sound && rows == []
         else Attributable(AllJudged(report, ready, end), rows)
    ensures r.Some? && report.Observed? ==>
      var ready, end := MarkerTimes(events, ms.ready)[0], MarkerTimes(events, ms.end)[0];
      r.value == Evidence(Rows(events, ms, refs), Proofs(AllJudged(report, ready, end), Rows(events, ms, refs)))
    ensures r.Some? && report.BuildFailed? ==> r.value == Evidence([], [])
  {
    var c := Collect(events, ms, refs);
    if c.None? { return None; }
    match report
    case BuildFailed(sound) =>
      if !sound || c.value.rows != [] { return None; }
      return Some(Evidence([], []));
    case Observed(_, _) =>
      var proofs := Attribute(AllJudged(report, c.value.ready, c.value.end), c.value.rows);
      if proofs.None? { return None; }
      return Some(Evidence(c.value.rows, proofs.value));
  }

  // ----- The lists partition the creations -----

  /** How often the proofs credit a row. */
  function Credit(r: Row): Proof -> nat {
    (p: Proof) => One(r in p.children)
  }

  lemma {:induction false} CreditIsCount(ws: seq<Judged>, rows: seq<Row>, r: Row)
    requires r in rows
    ensures Total(Credit(r), Proofs(ws, rows)) == Total(Counts(r), ws)
  {
    if ws != [] {
      var k := |ws| - 1;
      CreditIsCount(ws[..k], rows, r);
      TotalSnoc(Counts(r), ws[..k], ws[k]);
      assert ws == ws[..k] + [ws[k]];
      if ws[k].Window? {
        TotalSnoc(Credit(r), Proofs(ws[..k], rows), Proof(ws[k], Children(rows, ws[k])));
      } else {
        assert Proofs(ws, rows) == Proofs(ws[..k], rows);
      }
    }
  }

  lemma {:induction false} OnlyObservedInside(ws: seq<Judged>, rows: seq<Row>, p: Proof, r: Row)
    requires p in Proofs(ws, rows) && r in p.children
    ensures r in rows && Inside(r, p.window) && p.window in ws
  {
    var k := |ws| - 1;
    if p in Proofs(ws[..k], rows) { OnlyObservedInside(ws[..k], rows, p, r); }
  }

  /** On acceptance every creation is credited exactly once, and only to windows it lies in. */
  lemma ProofsPartition(ws: seq<Judged>, rows: seq<Row>, r: Row, p: Proof)
    requires Attributable(ws, rows)
    ensures r in rows ==> Total(Credit(r), Proofs(ws, rows)) == 1
    ensures p in Proofs(ws, rows) && r in p.children ==> r in rows && Inside(r, p.window) && p.window in ws
  {
    if r in rows { CreditIsCount(ws, rows, r); }
    if p in Proofs(ws, rows) && r in p.children { OnlyObservedInside(ws, rows, p, r); }
  }

  /** Reordering the samples of a side does not change acceptance. */
  lemma ReorderedSamples(a: Side, b: Side, c: Side, ready: int, end: int, rows: seq<Row>)
    requires a.families == b.families && multiset(a.samples) == multiset(b.samples)
    ensures Attributable(JudgeAll(a, ready, end) + JudgeAll(c, ready, end), rows)
       <==> Attributable(JudgeAll(b, ready, end) + JudgeAll(c, ready, end), rows)
    ensures Attributable(JudgeAll(c, ready, end) + JudgeAll(a, ready, end), rows)
       <==> Attributable(JudgeAll(c, ready, end) + JudgeAll(b, ready, end), rows)
  {
    var x, y, z := JudgeAll(a, ready, end), JudgeAll(b, ready, end), JudgeAll(c, ready, end);
    forall w: Judged ensures multiset(x)[w] == multiset(y)[w] {
      MapPermutes(Judgement(a.families, ready, end), a.samples, b.samples, w);
    }
    assert multiset(x) == multiset(y);
    assert multiset(x + z) == multiset(y + z) && multiset(z + x) == multiset(z + y);
    OrderDoesNotMatter(x + z, y + z, rows);
    OrderDoesNotMatter(z + x, z + y, rows);
  }
}
