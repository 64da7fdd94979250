/**
 Reconciliation of independently produced shard reports with the plan they were cut from
 (`reconcile_reports`): families and tests are counted over all reports, and the union of the
 reports is compared with the plan.
 */
module Reconcile {
  import opened Wrappers
  import opened Totals
  import opened Reports

  // ----- Counting -----

  datatype Counts = Counts(expected: nat, inventoried: nat, executed: nat, cases: nat, ignoredCases: nat,
                           emptyFamilies: nat, ignoredOnlyFamilies: nat, metrics: map<string, nat>)

  function Shards(rs: seq<Report>): seq<int> {
    seq(|rs|, i requires 0 <= i < |rs| => rs[i].shard)
  }

  predicate IsExecuted(e: Entry) {
    Work(e) > 0
  }

  predicate IsEmpty(e: Entry) {
    e.ignored == []
  }

  predicate IsIgnoredOnly(e: Entry) {
    e.ignored != [] && Work(e) == 0
  }

  const METRICS: set<string> := {"native", "rss", "syscall", "allocation", "copy"}
  const DIRECT := "direct-passed-cases"

  predicate IsDirect(e: Entry, metric: string) {
    metric in e.coverage && e.coverage[metric] == "direct-passed-cases"
  }

  /** Each counter is a total over the families: one for each, or its cases. */
  function Flag(p: Entry -> bool): Entry -> nat {
    e => One(p(e))
  }

  function Cases(): Entry -> nat {
    (e: Entry) => |e.ignored|
  }

  function IgnoredCases(): Entry -> nat {
    (e: Entry) => Ignored(e.ignored)
  }

  function Direct(metric: string): Entry -> nat {
    e => One(IsExecuted(e) && IsDirect(e, metric))
  }

  ghost predicate Measured(metrics: map<string, nat>, es: seq<Entry>) {
    forall m :: m in metrics ==> metrics[m] == Total(Direct(m), es)
  }

  /** The counters after the families `es`, `expected` and `inventoried` aside. */
  ghost predicate Tallied(c: Counts, es: seq<Entry>) {
    && c.executed == Total(Flag(IsExecuted), es)
    && c.emptyFamilies == Total(Flag(IsEmpty), es)
    && c.ignoredOnlyFamilies == Total(Flag(IsIgnoredOnly), es)
    && c.cases == Total(Cases(), es)
    && c.ignoredCases == Total(IgnoredCases(), es)
    && Measured(c.metrics, es)
  }

  lemma {:induction false} EveryFamilyCountedOnce(es: seq<Entry>)
    ensures Total(Flag(IsExecuted), es) + Total(Flag(IsEmpty), es) + Total(Flag(IsIgnoredOnly), es) == |es|
  {
    if es != [] {
      var e := es[|es| - 1];
      EveryFamilyCountedOnce(es[..|es| - 1]);
      assert Ignored([]) == 0;
      assert Flag(IsExecuted)(e) == One(IsExecuted(e)) && Flag(IsEmpty)(e) == One(IsEmpty(e));
      assert Flag(IsIgnoredOnly)(e) == One(IsIgnoredOnly(e));
    }
  }

  /** The counters of an executed family go up by one for each metric it covers directly. */
  method CountMetrics(metrics: map<string, nat>, e: Entry) returns (r: map<string, nat>)
    ensures r.Keys == metrics.Keys && forall m :: m in metrics ==> r[m] == metrics[m] + One(IsDirect(e, m))
  {
    r := metrics;
    var todo := e.coverage.Keys;
    while todo != {}
      invariant todo <= e.coverage.Keys && r.Keys == metrics.Keys
      invariant forall m :: m in metrics ==> r[m] == metrics[m] + One(m !in todo && IsDirect(e, m))
    {
      var metric :| metric in todo;
      todo := todo - {metric};
      if metric in r && e.coverage[metric] == DIRECT { r := r[metric := r[metric] + 1]; }
    }
  }

  lemma MeasuredStep(metrics: map<string, nat>, es: seq<Entry>, e: Entry, metrics': map<string, nat>)
    requires Measured(metrics, es) && metrics'.Keys == metrics.Keys
    requires forall m :: m in metrics ==> metrics'[m] == metrics[m] + One(IsExecuted(e) && IsDirect(e, m))
    ensures Measured(metrics', es + [e])
  {
    forall m | m in metrics' ensures metrics'[m] == Total(Direct(m), es + [e]) {
      assert m in metrics;
      TotalSnoc(Direct(m), es, e);
    }
  }

  lemma TallyStep(c: Counts, es: seq<Entry>, e: Entry, c': Counts)
    requires Tallied(c, es)
    requires c'.cases == c.cases + |e.ignored| && c'.ignoredCases == c.ignoredCases + Ignored(e.ignored)
    requires c'.executed == c.executed + One(IsExecuted(e))
    requires c'.emptyFamilies == c.emptyFamilies + One(IsEmpty(e))
    requires c'.ignoredOnlyFamilies == c.ignoredOnlyFamilies + One(IsIgnoredOnly(e))
    requires Measured(c'.metrics, es + [e])
    ensures Tallied(c', es + [e])
  {
    TotalSnoc(Flag(IsExecuted), es, e);
    TotalSnoc(Flag(IsEmpty), es, e);
    TotalSnoc(Flag(IsIgnoredOnly), es, e);
    TotalSnoc(Cases(), es, e);
    TotalSnoc(IgnoredCases(), es, e);
  }

  /** Nothing but the tally differs. */
  predicate SameFrame(a: Counts, b: Counts) {
    a.expected == b.expected && a.inventoried == b.inventoried && a.metrics.Keys == b.metrics.Keys
  }

  /** One family added to the counters. */
  method CountEntry(c: Counts, e: Entry, ghost es: seq<Entry>) returns (r: Counts)
    requires Tallied(c, es)
    ensures Tallied(r, es + [e]) && SameFrame(r, c)
  {
    var ignored := Ignored(e.ignored);
    r := c.(cases := c.cases + |e.ignored|, ignoredCases := c.ignoredCases + ignored);
    if |e.ignored| - ignored == 0 {
      if e.ignored != [] {
        r := r.(ignoredOnlyFamilies := r.ignoredOnlyFamilies + 1);
      } else {
        r := r.(emptyFamilies := r.emptyFamilies + 1);
      }
    } else {
      var metrics := CountMetrics(r.metrics, e);
      r := r.(executed := r.executed + 1, metrics := metrics);
    }
    MeasuredStep(c.metrics, es, e, r.metrics);
    TallyStep(c, es, e, r);
  }

  /** All families of the reports, in the order in which they are counted. */
  function AllEntries(rs: seq<Report>, side: Side): seq<Entry> {
    if rs == [] then [] else AllEntries(rs[..|rs| - 1], side) + Entries(rs[|rs| - 1], side)
  }

  /** Only the closing comparison reports that the union differs. */
  lemma ChecksDoNotCompareUnions(plan: Plan, r: Report, side: Side, entries: seq<Entry>, failure: Failure)
    requires exists e :: e in entries && Checks(plan, r, side)(e) == Some(failure)
    ensures failure != UnionDiffers
  {
  }

  /** And failed tests are found before the families are looked at. */
  lemma EntriesAreInvalid(hash: string -> nat, plan: Plan, r: Report, side: Side, e: Entry)
    requires plan.shards != 0 && CheckReport(hash, plan, r, side) == None
    ensures CheckEntry(plan, r, side, e) != Some(FunctionalFailed)
  {
    var s := Of(r, side);
    CheckReportExact(hash, plan, r, side, s);
    forall x | x in ObservationsOf(r, side, e.id) ensures x.state != FunctionalFailure {
      ForFamilyExact(AllSamples(r, side), e.id, x);
    }
  }

  ghost function Well(hash: string -> nat, plan: Plan, side: Side): Report -> bool
    requires plan.shards != 0
  {
    r => WellReported(hash, plan, r, side)
  }

  ghost function Failing(hash: string -> nat, plan: Plan, side: Side): Report -> bool
    requires plan.shards != 0
  {
    r => TestFailed(hash, plan, r, side)
  }

  /** Some report is bad, and those before it are good. */
  ghost predicate FirstIs(good: Report -> bool, bad: Report -> bool, rs: seq<Report>) {
    exists i :: 0 <= i < |rs| && bad(rs[i]) && forall j :: 0 <= j < i ==> good(rs[j])
  }

  /** Some report has a failed test, and those before it are as they should be. */
  ghost predicate FirstToFail(hash: string -> nat, plan: Plan, rs: seq<Report>, side: Side)
    requires plan.shards != 0
  {
    FirstIs(Well(hash, plan, side), Failing(hash, plan, side), rs)
  }

  /** Every report and every family in it passes its checks. */
  predicate ReportsPass(hash: string -> nat, plan: Plan, rs: seq<Report>, side: Side)
    requires plan.shards != 0 || rs == []
  {
    rs == [] || (ReportsPass(hash, plan, rs[..|rs| - 1], side) && ReportPasses(hash, plan, rs[|rs| - 1], side))
  }

  lemma OneMoreDone(before: seq<Entry>, entries: seq<Entry>, i: nat)
    requires i < |entries|
    ensures before + entries[..i + 1] == before + entries[..i] + [entries[i]]
  {
  }

  /** The families are checked and counted one by one; the first failure ends it. */
  method CountEntries(check: Entry -> Option<Failure>, entries: seq<Entry>, c: Counts, ghost before: seq<Entry>)
    returns (result: Result<Counts, Failure>)
    requires Tallied(c, before)
    ensures result.Ok? <==> EntriesPass(check, entries)
    ensures result.Ok? ==> Tallied(result.value, before + entries)
                           && SameFrame(result.value, c)
    ensures result.Err? ==> exists e :: e in entries && check(e) == Some(result.error)
  {
    var counts := c;
    ghost var done := before;
    for i := 0 to |entries|
      invariant EntriesPass(check, entries[..i])
      invariant done == before + entries[..i] && Tallied(counts, done)
      invariant SameFrame(counts, c)
    {
      var entry := entries[i];
      var failure := check(entry);
      if failure.Some? {
        if EntriesPass(check, entries) { EntryPasses(check, entries, i); }
        return Err(failure.value);
      }
      OneMorePasses(check, entries, i);
      OneMoreDone(before, entries, i);
      counts := CountEntry(counts, entry, done);
      done := done + [entry];
    }
    assert entries[..|entries|] == entries;
    result := Ok(counts);
  }

  method CountReport(hash: string -> nat, plan: Plan, r: Report, side: Side, c: Counts, ghost before: seq<Entry>)
    returns (result: Result<Counts, Failure>)
    requires plan.shards != 0 && Tallied(c, before)
    ensures result.Ok? <==> ReportPasses(hash, plan, r, side)
    ensures result.Ok? ==> Tallied(result.value, before + Entries(r, side))
                           && SameFrame(result.value, c)
    ensures result.Err? ==> result.error != UnionDiffers
    ensures result == Err(FunctionalFailed) <==> Failing(hash, plan, side)(r)
  {
    CheckReportExact(hash, plan, r, side, Of(r, side));
    var failure := CheckReport(hash, plan, r, side);
    if failure.Some? { return Err(failure.value); }
    var check, entries := Checks(plan, r, side), Entries(r, side);
    result := CountEntries(check, entries, c, before);
    if result.Err? {
      ChecksDoNotCompareUnions(plan, r, side, entries, result.error);
      ghost var e :| e in entries && check(e) == Some(result.error);
      EntriesAreInvalid(hash, plan, r, side, e);
    }
  }

  // ----- One side, then both -----

  lemma PassedReport(hash: string -> nat, plan: Plan, r: Report, side: Side)
    requires plan.shards != 0 && ReportPasses(hash, plan, r, side)
    ensures NoDuplicates(Ids(plan.families))
    ensures multiset(EntryIds(Entries(r, side)))
         == multiset(Assigned(hash, Ids(plan.families), r.shard, plan.shards))
  {
  }

  /** The families of a report are the ones its shard was assigned. */
  ghost predicate Serves(hash: string -> nat, ids: seq<string>, shards: int, r: Report, side: Side)
    requires shards != 0
  {
    multiset(EntryIds(Entries(r, side))) == multiset(Assigned(hash, ids, r.shard, shards))
  }

  lemma {:induction false} PassesAt(hash: string -> nat, plan: Plan, rs: seq<Report>, i: nat, side: Side)
    requires i < |rs| && plan.shards != 0 && ReportsPass(hash, plan, rs, side)
    ensures ReportPasses(hash, plan, rs[i], side)
  {
    if i < |rs| - 1 { PassesAt(hash, plan, rs[..|rs| - 1], i, side); }
  }

  lemma ServesAt(hash: string -> nat, plan: Plan, rs: seq<Report>, i: nat, side: Side)
    requires i < |rs| && plan.shards != 0 && ReportsPass(hash, plan, rs, side)
    ensures Serves(hash, Ids(plan.families), plan.shards, rs[i], side)
    ensures NoDuplicates(Ids(plan.families))
  {
    PassesAt(hash, plan, rs, i, side);
    PassedReport(hash, plan, rs[i], side);
  }

  lemma AssignedSnoc(hash: string -> nat, ids: seq<string>, served: seq<int>, shard: int, shards: int)
    requires shards != 0
    ensures AssignedTotal(hash, ids, served + [shard], shards)
         == AssignedTotal(hash, ids, served, shards) + multiset(Assigned(hash, ids, shard, shards))
  {
    assert (served + [shard])[..|served + [shard]| - 1] == served;
  }

  lemma ReportedSnoc(rs: seq<Report>, side: Side)
    requires rs != []
    ensures var k := |rs| - 1;
            && Shards(rs) == Shards(rs[..k]) + [rs[k].shard]
            && multiset(EntryIds(AllEntries(rs, side)))
               == multiset(EntryIds(AllEntries(rs[..k], side))) + multiset(EntryIds(Entries(rs[k], side)))
  {
    EntryIdsConcat(AllEntries(rs[..|rs| - 1], side), Entries(rs[|rs| - 1], side));
  }

  /** The families reported by all shards are the assignments of the shards they served. */
  lemma {:induction false} ReportedIsAssigned(hash: string -> nat, ids: seq<string>, shards: int, rs: seq<Report>, side: Side)
    requires shards != 0 && forall i :: 0 <= i < |rs| ==> Serves(hash, ids, shards, rs[i], side)
    ensures multiset(EntryIds(AllEntries(rs, side))) == AssignedTotal(hash, ids, Shards(rs), shards)
  {
    if rs != [] {
      var k := |rs| - 1;
      ReportedIsAssigned(hash, ids, shards, rs[..k], side);
      ReportedSnoc(rs, side);
      AssignedSnoc(hash, ids, Shards(rs[..k]), rs[k].shard, shards);
      assert Serves(hash, ids, shards, rs[k], side);
    }
  }

  /** Once every report passes, the closing comparison of all families with the plan cannot fail. */
  lemma UnionReconciles(hash: string -> nat, plan: Plan, rs: seq<Report>, side: Side)
    requires plan.shards >= 1 && Reconciles(Range(plan.shards), Shards(rs))
    requires ReportsPass(hash, plan, rs, side)
    ensures Reconciles(Ids(plan.families), EntryIds(AllEntries(rs, side)))
  {
    forall i | 0 <= i < |rs| ensures Serves(hash, Ids(plan.families), plan.shards, rs[i], side) {
      ServesAt(hash, plan, rs, i, side);
    }
    ReportedIsAssigned(hash, Ids(plan.families), plan.shards, rs, side);
    ShardsPartition(hash, Ids(plan.families), Shards(rs), plan.shards);
    RangeCounts(plan.shards, 0);
    assert 0 in Shards(rs);
    ServesAt(hash, plan, rs, 0, side);
  }

  lemma NoShardsNoReports(plan: Plan, rs: seq<Report>)
    requires plan.shards < 1 && Reconciles(Range(plan.shards), Shards(rs))
    ensures rs == []
  {
    assert |multiset(Shards(rs))| == |rs|;
  }

  lemma EmptyReconciles<T>(s: seq<T>)
    ensures Reconciles(s, []) <==> s == []
  {
    if s != [] { assert s[0] in multiset(s); }
  }

  /** What an accepted side promises. */
  ghost predicate Covered(plan: Plan, rs: seq<Report>, side: Side, c: Counts) {
    && Tallied(c, AllEntries(rs, side))
    && Reconciles(Ids(plan.families), EntryIds(AllEntries(rs, side)))
    && c.expected == c.inventoried == |plan.families|
    && c.metrics.Keys == {"native", "rss", "syscall", "allocation", "copy"}
    && c.inventoried == c.executed + c.emptyFamilies + c.ignoredOnlyFamilies
  }

  /** A sound plan, of which every shard is reported as it should be; without a shard there must be nothing to report. */
  ghost predicate SideAccepted(hash: string -> nat, plan: Plan, rs: seq<Report>, side: Side) {
    && plan.sound
    && (plan.shards < 1 ==> plan.families == [])
    && (plan.shards >= 1 ==> forall i :: 0 <= i < |rs| ==> WellReported(hash, plan, rs[i], side))
  }

  /** Each report passes a test of reports. */
  predicate EachPasses(passes: Report -> bool, rs: seq<Report>) {
    rs == [] || (EachPasses(passes, rs[..|rs| - 1]) && passes(rs[|rs| - 1]))
  }

  lemma {:induction false} EachPassesExactly(passes: Report -> bool, rs: seq<Report>)
    ensures EachPasses(passes, rs) <==> forall i :: 0 <= i < |rs| ==> passes(rs[i])
  {
    if rs != [] {
      var k := |rs| - 1;
      EachPassesExactly(passes, rs[..k]);
      assert forall i :: 0 <= i < k ==> rs[..k][i] == rs[i];
    }
  }

  lemma {:induction false} ReportsPassEach(hash: string -> nat, plan: Plan, rs: seq<Report>, side: Side)
    requires plan.shards != 0
    ensures ReportsPass(hash, plan, rs, side) <==> EachPasses(Well(hash, plan, side), rs)
  {
    if rs != [] {
      ReportsPassEach(hash, plan, rs[..|rs| - 1], side);
      ReportExact(hash, plan, rs[|rs| - 1], side);
    }
  }

  lemma ReportsPassExactly(hash: string -> nat, plan: Plan, rs: seq<Report>, side: Side)
    requires plan.shards != 0
    ensures ReportsPass(hash, plan, rs, side) <==> forall i :: 0 <= i < |rs| ==> WellReported(hash, plan, rs[i], side)
  {
    ReportsPassEach(hash, plan, rs, side);
    EachPassesExactly(Well(hash, plan, side), rs);
  }

  method CountReports(hash: string -> nat, plan: Plan, reports: seq<Report>, side: Side)
    returns (result: Result<Counts, Failure>)
    requires plan.shards >= 1 || reports == []
    ensures result.Ok? <==> ReportsPass(hash, plan, reports, side)
    ensures result.Ok? ==> Tallied(result.value, AllEntries(reports, side))
                           && result.value.expected == |plan.families| && result.value.inventoried == 0
                           && result.value.metrics.Keys == METRICS
    ensures result.Err? ==> result.error != UnionDiffers
    ensures plan.shards >= 1 ==> (result == Err(FunctionalFailed) <==> FirstToFail(hash, plan, reports, side))
    ensures plan.shards < 1 ==> result.Ok?
  {
    var counts := Counts(|Ids(plan.families)|, 0, 0, 0, 0, 0, 0, map m | m in METRICS :: 0);
    ghost var counted: seq<Entry> := [];
    for i := 0 to |reports|
      invariant ReportsPass(hash, plan, reports[..i], side)
      invariant counted == AllEntries(reports[..i], side) && Tallied(counts, counted)
      invariant counts.expected == |plan.families| && counts.inventoried == 0 && counts.metrics.Keys == METRICS
    {
      var next := CountReport(hash, plan, reports[i], side, counts, counted);
      if next.Err? {
        StopsAt(hash, plan, reports, i, side);
        return Err(next.error);
      }
      PassOneMore(hash, plan, reports, i, side);
      counted := counted + Entries(reports[i], side);
      counts := next.value;
    }
    assert reports[..|reports|] == reports;
    if plan.shards >= 1 { NoTestFailedBehind(hash, plan, reports, side); }
    result := Ok(counts);
  }

  lemma WellHasNoFailure(hash: string -> nat, plan: Plan, r: Report, side: Side)
    requires plan.shards != 0 && Well(hash, plan, side)(r)
    ensures !Failing(hash, plan, side)(r)
  {
  }

  lemma NoneIsBad(good: Report -> bool, bad: Report -> bool, rs: seq<Report>)
    requires EachPasses(good, rs) && forall r :: good(r) ==> !bad(r)
    ensures !FirstIs(good, bad, rs)
  {
    EachPassesExactly(good, rs);
  }

  lemma FirstBad(good: Report -> bool, bad: Report -> bool, rs: seq<Report>, i: nat)
    requires i < |rs| && EachPasses(good, rs[..i]) && !good(rs[i]) && forall r :: good(r) ==> !bad(r)
    ensures FirstIs(good, bad, rs) <==> bad(rs[i])
  {
    EachPassesExactly(good, rs[..i]);
    forall j | 0 <= j < i ensures good(rs[j]) { assert rs[..i][j] == rs[j]; }
  }

  /** When every report passes, none has a failed test. */
  lemma NoTestFailedBehind(hash: string -> nat, plan: Plan, rs: seq<Report>, side: Side)
    requires plan.shards != 0
    ensures ReportsPass(hash, plan, rs, side) ==> !FirstToFail(hash, plan, rs, side)
  {
    ReportsPassEach(hash, plan, rs, side);
    var good, bad := Well(hash, plan, side), Failing(hash, plan, side);
    forall r | good(r) ensures !bad(r) { WellHasNoFailure(hash, plan, r, side); }
    if EachPasses(good, rs) { NoneIsBad(good, bad, rs); }
  }

  /** The first report that does not pass decides. */
  lemma StopsAt(hash: string -> nat, plan: Plan, rs: seq<Report>, i: nat, side: Side)
    requires i < |rs| && plan.shards != 0
    requires ReportsPass(hash, plan, rs[..i], side) && !ReportPasses(hash, plan, rs[i], side)
    ensures !ReportsPass(hash, plan, rs, side)
    ensures FirstToFail(hash, plan, rs, side) <==> Failing(hash, plan, side)(rs[i])
  {
    if ReportsPass(hash, plan, rs, side) { PassesAt(hash, plan, rs, i, side); }
    ReportsPassEach(hash, plan, rs[..i], side);
    ReportExact(hash, plan, rs[i], side);
    var good, bad := Well(hash, plan, side), Failing(hash, plan, side);
    forall r | good(r) ensures !bad(r) { WellHasNoFailure(hash, plan, r, side); }
    FirstBad(good, bad, rs, i);
  }

  lemma PassOneMore(hash: string -> nat, plan: Plan, rs: seq<Report>, i: nat, side: Side)
    requires i < |rs| && plan.shards != 0
    requires ReportsPass(hash, plan, rs[..i], side) && ReportPasses(hash, plan, rs[i], side)
    ensures ReportsPass(hash, plan, rs[..i + 1], side)
    ensures AllEntries(rs[..i + 1], side) == AllEntries(rs[..i], side) + Entries(rs[i], side)
  {
    assert rs[..i + 1][..i] == rs[..i];
  }

  method ReconcileSide(hash: string -> nat, plan: Plan, reports: seq<Report>, side: Side)
    returns (result: Result<Counts, Failure>)
    requires Reconciles(Range(plan.shards), Shards(reports))
    ensures result.Ok? <==> SideAccepted(hash, plan, reports, side)
    ensures result.Ok? ==> Covered(plan, reports, side, result.value)
    ensures result == Err(UnionDiffers) <==> plan.sound && plan.shards < 1 && plan.families != []
    ensures result == Err(FunctionalFailed) <==> plan.sound && plan.shards >= 1 && FirstToFail(hash, plan, reports, side)
  {
    if !plan.sound { return Err(Invalid); }
    if plan.shards < 1 { NoShardsNoReports(plan, reports); }
    var counted := CountReports(hash, plan, reports, side);
    if plan.shards >= 1 { ReportsPassExactly(hash, plan, reports, side); }
    if counted.Err? { return Err(counted.error); }
    var expected, actual := Ids(plan.families), EntryIds(AllEntries(reports, side));
    if plan.shards >= 1 { UnionReconciles(hash, plan, reports, side); } else { EmptyReconciles(expected); }
    if !Reconciles(expected, actual) { return Err(UnionDiffers); }
    SameLength(expected, actual);
    EveryFamilyCountedOnce(AllEntries(reports, side));
    result := Ok(counted.value.(inventoried := |actual|));
  }

  lemma SameLength<T>(a: seq<T>, b: seq<T>)
    requires multiset(a) == multiset(b)
    ensures |a| == |b|
  {
    assert |multiset(a)| == |multiset(b)|;
  }

  datatype Coverage = Coverage(base: Counts, candidate: Counts)

  /**
   The whole reconciliation. With at least one shard the closing comparison never fails: a
   rejected campaign is rejected by a check of one report. With no shard at all there are no
   reports, and the closing comparison is the only check that notices the planned families.
   */
  method ReconcileReports(hash: string -> nat, base: Plan, candidate: Plan, reports: seq<Report>)
    returns (result: Result<Coverage, Failure>)
    ensures result.Ok? <==>
      && base.shards == candidate.shards && base.axis == candidate.axis
      && Reconciles(Range(base.shards), Shards(reports))
      && SideAccepted(hash, base, reports, Base) && SideAccepted(hash, candidate, reports, Candidate)
    ensures result.Ok? ==> Covered(base, reports, Base, result.value.base)
                           && Covered(candidate, reports, Candidate, result.value.candidate)
    ensures base.shards >= 1 ==> result != Err(UnionDiffers)
  {
    if candidate.shards != base.shards || candidate.axis != base.axis { return Err(Invalid); }
    if !Reconciles(Range(base.shards), Shards(reports)) { return Err(Invalid); }
    var b := ReconcileSide(hash, base, reports, Base);
    if b.Err? { return Err(b.error); }
    var c := ReconcileSide(hash, candidate, reports, Candidate);
    if c.Err? { return Err(c.error); }
    result := Ok(Coverage(b.value, c.value));
  }

  /**
   A plan with no shard and one family: there is no report that could fail, and only the closing
   comparison notices the family.
   */
  lemma NoShardUnion(hash: string -> nat, plan: Plan, family: Family, side: Side)
    requires plan == Plan(0, "workspace-all-features", true, [family])
    ensures Reconciles(Range(plan.shards), Shards([])) && ReportsPass(hash, plan, [], side)
    ensures !Reconciles(Ids(plan.families), EntryIds(AllEntries([], side)))
    ensures !SideAccepted(hash, plan, [], side)
  {
    EmptyReconciles(Ids(plan.families));
  }
}
