/**
 Shard reports and the plan they were cut from: the exact-once comparison of lists (`reconcile_families`),
 sharding by hash (`shard_matches`), the checks of one report inside `reconcile_reports`, and exactly which
 reports pass them.

 `hash` stands for SHA-256 read as a number. Comparisons of provenance, digests and scopes that
 do not look at families are collected into one Boolean per plan and per report side.
 */
module Reports {
  import opened Wrappers
  import opened Totals

  // ----- Exact-once comparison of lists -----

  predicate NoDuplicates<T(==)>(s: seq<T>) {
    forall x :: x in s ==> multiset(s)[x] == 1
  }

  /** `reconcile_families` with one list: nothing missing, nothing unexpected, nothing twice. */
  predicate Reconciles<T(==)>(expected: seq<T>, actual: seq<T>) {
    multiset(expected) == multiset(actual) && NoDuplicates(expected)
  }

  function Range(n: int): seq<int>
    decreases n
  {
    if n <= 0 then [] else Range(n - 1) + [n - 1]
  }

  lemma {:induction false} RangeAt(n: int, k: int)
    requires 0 <= k < n
    ensures |Range(n)| == n && Range(n)[k] == k
    decreases n
  {
    if k < n - 1 { RangeAt(n - 1, k); } else if n > 1 { RangeAt(n - 1, 0); }
  }

  lemma RangeLength(n: int)
    ensures |Range(n)| == if n > 0 then n else 0
  {
    if n > 0 { RangeAt(n, 0); }
  }

  lemma TwiceInside<T>(s: seq<T>, i: nat, j: nat)
    requires i < j < |s| && s[i] == s[j]
    ensures multiset(s)[s[i]] >= 2
  {
    assert s == s[..i] + [s[i]] + s[i + 1..j] + [s[j]] + s[j + 1..];
  }

  lemma OnceInside<T>(s: seq<T>, i: nat)
    requires i < |s| && forall j :: 0 <= j < |s| && j != i ==> s[j] != s[i]
    ensures multiset(s)[s[i]] == 1
  {
    assert s == s[..i] + [s[i]] + s[i + 1..];
    assert s[i] !in s[..i] && s[i] !in s[i + 1..];
  }

  lemma RangeCounts(n: int, k: int)
    ensures multiset(Range(n))[k] == if 0 <= k < n then 1 else 0
  {
    RangeLength(n);
    forall j | 0 <= j < n ensures Range(n)[j] == j { RangeAt(n, j); }
    if 0 <= k < n { OnceInside(Range(n), k); } else { assert k !in Range(n); }
  }

  // ----- Sharding -----

  predicate ShardMatches(hash: string -> nat, id: string, shard: int, shards: int)
    requires shards != 0
  {
    hash(id) % shards == shard
  }

  function Assigned(hash: string -> nat, ids: seq<string>, shard: int, shards: int): seq<string>
    requires shards != 0
  {
    if ids == [] then []
    else (if ShardMatches(hash, ids[0], shard, shards) then [ids[0]] else []) + Assigned(hash, ids[1..], shard, shards)
  }

  lemma {:induction false} AssignedCounts(hash: string -> nat, ids: seq<string>, shard: int, shards: int, x: string)
    requires shards != 0
    ensures multiset(Assigned(hash, ids, shard, shards))[x]
         == if ShardMatches(hash, x, shard, shards) then multiset(ids)[x] else 0
  {
    if ids != [] {
      AssignedCounts(hash, ids[1..], shard, shards, x);
      assert ids == [ids[0]] + ids[1..];
    }
  }

  /** What a list of shards was assigned in total. */
  function AssignedTotal(hash: string -> nat, ids: seq<string>, served: seq<int>, shards: int): multiset<string>
    requires shards != 0
  {
    if served == [] then multiset{}
    else AssignedTotal(hash, ids, served[..|served| - 1], shards) + multiset(Assigned(hash, ids, served[|served| - 1], shards))
  }

  /** A family whose shard was served once is assigned once; one whose shard was not, never. */
  lemma {:induction false} TotalCounts(hash: string -> nat, ids: seq<string>, served: seq<int>, shards: int, x: string)
    requires shards >= 1
    ensures multiset(served)[hash(x) % shards] == 0 ==> AssignedTotal(hash, ids, served, shards)[x] == 0
    ensures multiset(served)[hash(x) % shards] == 1 ==> AssignedTotal(hash, ids, served, shards)[x] == multiset(ids)[x]
  {
    if served != [] {
      var k := |served| - 1;
      TotalCounts(hash, ids, served[..k], shards, x);
      AssignedCounts(hash, ids, served[k], shards, x);
      assert served == served[..k] + [served[k]];
    }
  }

  /** Hash sharding is a partition: serving every shard once assigns every family exactly once. */
  lemma ShardsPartition(hash: string -> nat, ids: seq<string>, served: seq<int>, shards: int)
    requires shards >= 1 && Reconciles(Range(shards), served)
    ensures AssignedTotal(hash, ids, served, shards) == multiset(ids)
  {
    forall x ensures AssignedTotal(hash, ids, served, shards)[x] == multiset(ids)[x] {
      TotalCounts(hash, ids, served, shards, x);
      RangeCounts(shards, hash(x) % shards);
    }
  }

  // ----- Plans and reports -----

  datatype Kind = Executable | Doctest | UnknownKind(name: string)
  datatype Side = Base | Candidate

  /** A family of tests in a plan; `policy` is its fixture declaration. */
  datatype Family = Family(id: string, kind: Kind, policy: string)

  /** `sound` collects the checks of revision, scope, features and execution contract. */
  datatype Plan = Plan(shards: int, axis: string, sound: bool, families: seq<Family>)

  /** A family in a report: one flag per test, true when the test is ignored; `coverage` is its metric coverage. */
  datatype Entry = Entry(id: string, policy: string, ignored: seq<bool>, hasRuntime: bool, coverage: map<string, string>)

  datatype State = Valid | Unmeasured | FunctionalFailure | OtherState

  /** One execution; `sameRuntime` says that its runtime identity is recorded and its family's. */
  datatype Sample = Sample(id: string, repetition: int, state: State, requested: int, completed: Option<int>, sameRuntime: bool)

  /** `matches` collects the comparisons of provenance and contract with the plan. */
  datatype SideReport = SideReport(
    matches: bool, expected: seq<string>, assignedIds: seq<string>, families: seq<Entry>, doctests: seq<Entry>,
    observations: seq<Sample>, doctestObservations: seq<Sample>)

  datatype Report = Report(shard: int, repetitions: int, base: SideReport, candidate: SideReport, calibration: seq<Sample>)

  datatype Failure = Invalid | FunctionalFailed | UnionDiffers

  function Of(r: Report, side: Side): SideReport {
    if side.Base? then r.base else r.candidate
  }

  function Ids(fs: seq<Family>): seq<string> {
    seq(|fs|, i requires 0 <= i < |fs| => fs[i].id)
  }

  function EntryIds(es: seq<Entry>): seq<string> {
    seq(|es|, i requires 0 <= i < |es| => es[i].id)
  }

  function SampleIds(ss: seq<Sample>): seq<string> {
    seq(|ss|, i requires 0 <= i < |ss| => ss[i].id)
  }

  function Keys(ss: seq<Sample>): seq<(string, int)> {
    seq(|ss|, i requires 0 <= i < |ss| => (ss[i].id, ss[i].repetition))
  }

  function OfKind(fs: seq<Family>, kind: Kind, assignedIds: seq<string>): seq<string> {
    if fs == [] then []
    else (if fs[0].kind == kind && fs[0].id in assignedIds then [fs[0].id] else []) + OfKind(fs[1..], kind, assignedIds)
  }

  /** Every family with every repetition. */
  function Repeated(es: seq<Entry>, repetitions: int): seq<(string, int)> {
    if es == [] then []
    else seq(|Range(repetitions)|, k requires 0 <= k < |Range(repetitions)| => (es[0].id, Range(repetitions)[k]))
         + Repeated(es[1..], repetitions)
  }

  function Ignored(flags: seq<bool>): (n: nat)
    ensures n <= |flags|
  {
    if flags == [] then 0 else (if flags[0] then 1 else 0) + Ignored(flags[1..])
  }

  function Work(e: Entry): nat {
    |e.ignored| - Ignored(e.ignored)
  }

  function Planned(fs: seq<Family>, id: string): Option<Family> {
    if fs == [] then None else if fs[0].id == id then Some(fs[0]) else Planned(fs[1..], id)
  }

  function Samples(r: Report, side: Side): seq<Sample> {
    Of(r, side).observations + Of(r, side).doctestObservations
  }

  function Entries(r: Report, side: Side): seq<Entry> {
    Of(r, side).families + Of(r, side).doctests
  }

  /** The observations that count for one family: on the base side the calibration runs too. */
  function ObservationsOf(r: Report, side: Side, id: string): seq<Sample> {
    ForFamily(AllSamples(r, side), id)
  }

  function AllSamples(r: Report, side: Side): seq<Sample> {
    Samples(r, side) + (if side.Base? then r.calibration else [])
  }

  function ForFamily(ss: seq<Sample>, id: string): seq<Sample> {
    if ss == [] then [] else (if ss[0].id == id then [ss[0]] else []) + ForFamily(ss[1..], id)
  }

  // ----- The checks of one report -----

  predicate ListsReconcile(hash: string -> nat, plan: Plan, r: Report, side: Side)
    requires plan.shards != 0
  {
    var s := Of(r, side);
    var expected := Ids(plan.families);
    var assignedIds := Assigned(hash, expected, r.shard, plan.shards);
    && Reconciles(expected, s.expected)
    && Reconciles(assignedIds, s.assignedIds)
    && Reconciles(assignedIds, EntryIds(Entries(r, side)))
    && Reconciles(OfKind(plan.families, Executable, assignedIds), EntryIds(s.families))
    && Reconciles(OfKind(plan.families, Doctest, assignedIds), EntryIds(s.doctests))
    && 2 <= r.repetitions <= 20
    && Reconciles(Repeated(s.families, r.repetitions), Keys(s.observations))
    && Reconciles(EntryIds(s.doctests), SampleIds(s.doctestObservations))
    && (side.Base? ==> Reconciles(Repeated(s.families, r.repetitions), Keys(r.calibration)))
  }

  predicate HasState(ss: seq<Sample>, state: State) {
    exists s :: s in ss && s.state == state
  }

  /** The checks before the entries are counted, in the order of the source. */
  function CheckReport(hash: string -> nat, plan: Plan, r: Report, side: Side): Option<Failure>
    requires plan.shards != 0
  {
    var samples := Samples(r, side);
    if !Of(r, side).matches || !ListsReconcile(hash, plan, r, side) then Some(Invalid)
    else if HasState(samples + r.calibration, FunctionalFailure) then Some(FunctionalFailed)
    else if HasState(samples + r.calibration, OtherState) then Some(Invalid)
    else if exists s :: s in samples && s.id !in Assigned(hash, Ids(plan.families), r.shard, plan.shards) then Some(Invalid)
    else None
  }

  predicate Complete(s: Sample, e: Entry) {
    s.state == Valid && s.requested == |e.ignored| && s.completed == Some(Work(e))
  }

  /** The checks of one counted family. */
  function CheckEntry(plan: Plan, r: Report, side: Side, e: Entry): Option<Failure> {
    var planned := Planned(plan.families, e.id);
    var observations := ObservationsOf(r, side, e.id);
    if planned.None? || planned.value.policy != e.policy then Some(Invalid)
    else if Work(e) == 0 then None
    else if HasState(observations, FunctionalFailure) then Some(FunctionalFailed)
    else if observations == [] || exists s :: s in observations && !Complete(s, e) then Some(Invalid)
    else if e in Of(r, side).families && (!e.hasRuntime || exists s :: s in observations && !s.sameRuntime) then Some(Invalid)
    else None
  }

  /** What can be wrong with a family of the report. */
  function Checks(plan: Plan, r: Report, side: Side): Entry -> Option<Failure> {
    e => CheckEntry(plan, r, side, e)
  }

  /** Each of the families passes the check. */
  predicate EntriesPass(check: Entry -> Option<Failure>, es: seq<Entry>) {
    es == [] || (EntriesPass(check, es[..|es| - 1]) && check(es[|es| - 1]) == None)
  }

  lemma {:induction false} EntryPasses(check: Entry -> Option<Failure>, es: seq<Entry>, i: nat)
    requires EntriesPass(check, es) && i < |es|
    ensures check(es[i]) == None
  {
    if i < |es| - 1 { EntryPasses(check, es[..|es| - 1], i); }
  }

  lemma OneMorePasses(check: Entry -> Option<Failure>, es: seq<Entry>, i: nat)
    requires i < |es| && EntriesPass(check, es[..i])
    ensures EntriesPass(check, es[..i + 1]) <==> check(es[i]) == None
  {
    assert es[..i + 1][..i] == es[..i];
  }

  predicate ReportPasses(hash: string -> nat, plan: Plan, r: Report, side: Side)
    requires plan.shards != 0
  {
    CheckReport(hash, plan, r, side) == None && EntriesPass(Checks(plan, r, side), Entries(r, side))
  }

  lemma EntryIdsConcat(a: seq<Entry>, b: seq<Entry>)
    ensures EntryIds(a + b) == EntryIds(a) + EntryIds(b)
  {
  }

  // ----- What passes -----

  /** `reconcile_families` in counts: what is expected is there once, and nothing else is. */
  lemma ReconcilesInCounts<T>(expected: seq<T>, actual: seq<T>)
    ensures Reconciles(expected, actual) <==>
      && (forall i, j :: 0 <= i < j < |expected| ==> expected[i] != expected[j])
      && forall x :: multiset(actual)[x] == One(x in expected)
  {
    DistinctMeansOnce(expected);
    if NoDuplicates(expected) {
      forall x ensures multiset(expected)[x] == One(x in expected) {
        assert x in expected <==> x in multiset(expected);
      }
      if forall x :: multiset(actual)[x] == One(x in expected) {
        forall x ensures multiset(expected)[x] == multiset(actual)[x] {}
      }
    }
  }

  lemma DistinctMeansOnce<T>(s: seq<T>)
    ensures NoDuplicates(s) <==> forall i, j :: 0 <= i < j < |s| ==> s[i] != s[j]
  {
    forall i, j | 0 <= i < j < |s| && s[i] == s[j] ensures multiset(s)[s[i]] >= 2 { TwiceInside(s, i, j); }
    if forall i, j :: 0 <= i < j < |s| ==> s[i] != s[j] {
      forall x | x in s ensures multiset(s)[x] == 1 {
        var i :| 0 <= i < |s| && s[i] == x;
        OnceInside(s, i);
      }
    }
    if NoDuplicates(s) {
      forall i, j | 0 <= i < j < |s| ensures s[i] != s[j] { assert s[i] in s; }
    }
  }

  /** The planned family `i` belongs to the shard. */
  predicate AssignedTo(hash: string -> nat, plan: Plan, i: nat, shard: int)
    requires i < |plan.families| && plan.shards != 0
  {
    hash(plan.families[i].id) % plan.shards == shard
  }

  /** Some planned family of the shard, of the kind if one is given, has the id. */
  ghost predicate Plans(hash: string -> nat, plan: Plan, shard: int, kind: Option<Kind>, id: string)
    requires plan.shards != 0
  {
    exists i: nat :: i < |plan.families| && plan.families[i].id == id && AssignedTo(hash, plan, i, shard)
                     && (kind.Some? ==> plan.families[i].kind == kind.value)
  }

  /** The list holds every planned id once, and nothing else. */
  ghost predicate ListsPlan(plan: Plan, ids: seq<string>) {
    forall id :: multiset(ids)[id] == One(exists i :: 0 <= i < |plan.families| && plan.families[i].id == id)
  }

  /** The list holds the planned ids of the shard, of the kind if one is given, each once, and nothing else. */
  ghost predicate ListsShard(hash: string -> nat, plan: Plan, shard: int, kind: Option<Kind>, ids: seq<string>)
    requires plan.shards != 0
  {
    forall id :: multiset(ids)[id] == One(Plans(hash, plan, shard, kind, id))
  }

  /** Every planned family of the shard is an executable or a doctest. */
  predicate KnownKinds(hash: string -> nat, plan: Plan, shard: int)
    requires plan.shards != 0
  {
    forall i: nat :: i < |plan.families| && AssignedTo(hash, plan, i, shard) ==>
      plan.families[i].kind == Executable || plan.families[i].kind == Doctest
  }

  /** The families and doctests of the report are those of the shard, each once and in its own list. */
  ghost predicate ListsFamilies(hash: string -> nat, plan: Plan, r: Report, s: SideReport)
    requires plan.shards != 0
  {
    && (forall i, j :: 0 <= i < j < |plan.families| ==> plan.families[i].id != plan.families[j].id)
    && KnownKinds(hash, plan, r.shard)
    && ListsPlan(plan, s.expected)
    && ListsShard(hash, plan, r.shard, None, s.assignedIds)
    && ListsShard(hash, plan, r.shard, Some(Executable), EntryIds(s.families))
    && ListsShard(hash, plan, r.shard, Some(Doctest), EntryIds(s.doctests))
  }

  /** The keys are every id with every repetition, each once, and nothing else. */
  ghost predicate ListsKeys(ids: seq<string>, repetitions: int, keys: seq<(string, int)>) {
    forall key: (string, int) :: multiset(keys)[key] == One(key.0 in ids && 0 <= key.1 < repetitions)
  }

  /** Every repetition of every family was observed once, on the base side in the calibration too; every doctest once. */
  ghost predicate ListsSamples(r: Report, side: Side, s: SideReport) {
    && 2 <= r.repetitions <= 20
    && ListsKeys(EntryIds(s.families), r.repetitions, Keys(s.observations))
    && (side == Base ==> ListsKeys(EntryIds(s.families), r.repetitions, Keys(r.calibration)))
    && (forall id :: multiset(SampleIds(s.doctestObservations))[id] == One(id in EntryIds(s.doctests)))
  }

  /** The sample ran every test of the entry that is not ignored. */
  predicate RanAll(sample: Sample, e: Entry) {
    sample.state == Valid && sample.requested == |e.ignored| && sample.completed == Some(multiset(e.ignored)[false])
  }

  lemma AssignedHas(hash: string -> nat, ids: seq<string>, shard: int, shards: int, x: string)
    requires shards != 0
    ensures x in Assigned(hash, ids, shard, shards) <==> x in ids && hash(x) % shards == shard
  {
    AssignedCounts(hash, ids, shard, shards, x);
    assert x in ids <==> x in multiset(ids);
    var a := Assigned(hash, ids, shard, shards);
    assert x in a <==> x in multiset(a);
  }

  lemma AssignedOnce(hash: string -> nat, ids: seq<string>, shard: int, shards: int)
    requires shards != 0 && NoDuplicates(ids)
    ensures NoDuplicates(Assigned(hash, ids, shard, shards))
  {
    forall x | x in Assigned(hash, ids, shard, shards) ensures multiset(Assigned(hash, ids, shard, shards))[x] == 1 {
      AssignedHas(hash, ids, shard, shards, x);
      AssignedCounts(hash, ids, shard, shards, x);
    }
  }

  lemma {:induction false} OfKindCount(fs: seq<Family>, kind: Kind, assignedIds: seq<string>, x: string)
    ensures multiset(OfKind(fs, kind, assignedIds))[x] <= multiset(Ids(fs))[x]
  {
    if fs != [] {
      OfKindCount(fs[1..], kind, assignedIds, x);
      assert Ids(fs) == [fs[0].id] + Ids(fs[1..]);
    }
  }

  lemma {:induction false} OfKindOnly(fs: seq<Family>, kind: Kind, assignedIds: seq<string>, x: string) returns (i: nat)
    requires x in OfKind(fs, kind, assignedIds)
    ensures i < |fs| && fs[i].id == x && fs[i].kind == kind && x in assignedIds
  {
    if x in OfKind(fs[1..], kind, assignedIds) {
      i := OfKindOnly(fs[1..], kind, assignedIds, x);
      i := i + 1;
    } else {
      i := 0;
    }
  }

  lemma {:induction false} OfKindAll(fs: seq<Family>, kind: Kind, assignedIds: seq<string>, i: nat)
    requires i < |fs| && fs[i].kind == kind && fs[i].id in assignedIds
    ensures fs[i].id in OfKind(fs, kind, assignedIds)
  {
    if i > 0 { OfKindAll(fs[1..], kind, assignedIds, i - 1); }
  }

  lemma OfKindOnce(fs: seq<Family>, kind: Kind, assignedIds: seq<string>)
    requires NoDuplicates(Ids(fs))
    ensures NoDuplicates(OfKind(fs, kind, assignedIds))
  {
    var ids := OfKind(fs, kind, assignedIds);
    forall x | x in ids ensures multiset(ids)[x] == 1 {
      OfKindCount(fs, kind, assignedIds, x);
      assert x in multiset(ids) && x in Ids(fs);
    }
  }

  lemma AssignedIsPlanned(hash: string -> nat, plan: Plan, shard: int, x: string)
    requires plan.shards != 0
    ensures x in Assigned(hash, Ids(plan.families), shard, plan.shards) <==> Plans(hash, plan, shard, None, x)
  {
    AssignedHas(hash, Ids(plan.families), shard, plan.shards, x);
    var ids := Ids(plan.families);
    if x in ids && hash(x) % plan.shards == shard {
      var i :| 0 <= i < |ids| && ids[i] == x;
      assert AssignedTo(hash, plan, i, shard);
    }
    if Plans(hash, plan, shard, None, x) {
      var i: nat :| i < |plan.families| && plan.families[i].id == x && AssignedTo(hash, plan, i, shard);
      assert ids[i] == x;
    }
  }

  lemma KindIsPlanned(hash: string -> nat, plan: Plan, shard: int, kind: Kind, x: string)
    requires plan.shards != 0
    ensures var assignedIds := Assigned(hash, Ids(plan.families), shard, plan.shards);
            x in OfKind(plan.families, kind, assignedIds) <==> Plans(hash, plan, shard, Some(kind), x)
  {
    var assignedIds := Assigned(hash, Ids(plan.families), shard, plan.shards);
    AssignedIsPlanned(hash, plan, shard, x);
    if x in OfKind(plan.families, kind, assignedIds) {
      var i := OfKindOnly(plan.families, kind, assignedIds, x);
      AssignedHas(hash, Ids(plan.families), shard, plan.shards, x);
      assert AssignedTo(hash, plan, i, shard);
    }
    if Plans(hash, plan, shard, Some(kind), x) {
      var i: nat :| i < |plan.families| && plan.families[i].id == x && AssignedTo(hash, plan, i, shard) && plan.families[i].kind == kind;
      assert Plans(hash, plan, shard, None, x);
      OfKindAll(plan.families, kind, assignedIds, i);
    }
  }

  /** The lists of families, in the words of the source. */
  predicate FamiliesReconcile(hash: string -> nat, plan: Plan, r: Report, s: SideReport)
    requires plan.shards != 0
  {
    var expected := Ids(plan.families);
    var assignedIds := Assigned(hash, expected, r.shard, plan.shards);
    && Reconciles(expected, s.expected)
    && Reconciles(assignedIds, s.assignedIds)
    && Reconciles(assignedIds, EntryIds(s.families + s.doctests))
    && Reconciles(OfKind(plan.families, Executable, assignedIds), EntryIds(s.families))
    && Reconciles(OfKind(plan.families, Doctest, assignedIds), EntryIds(s.doctests))
  }

  lemma PlanIdsDistinct(plan: Plan)
    ensures NoDuplicates(Ids(plan.families)) <==>
      forall i, j :: 0 <= i < j < |plan.families| ==> plan.families[i].id != plan.families[j].id
  {
    var ids := Ids(plan.families);
    DistinctMeansOnce(ids);
    assert forall i :: 0 <= i < |ids| ==> ids[i] == plan.families[i].id;
  }

  /** A planned id has one kind. */
  lemma OneKind(hash: string -> nat, plan: Plan, shard: int, x: string)
    requires plan.shards != 0 && NoDuplicates(Ids(plan.families))
    ensures !(Plans(hash, plan, shard, Some(Executable), x) && Plans(hash, plan, shard, Some(Doctest), x))
    ensures Plans(hash, plan, shard, Some(Executable), x) || Plans(hash, plan, shard, Some(Doctest), x) ==>
              Plans(hash, plan, shard, None, x)
    ensures KnownKinds(hash, plan, shard) && Plans(hash, plan, shard, None, x) ==>
              Plans(hash, plan, shard, Some(Executable), x) || Plans(hash, plan, shard, Some(Doctest), x)
  {
    PlanIdsDistinct(plan);
  }

  lemma KnownFrom(hash: string -> nat, plan: Plan, shard: int)
    requires plan.shards != 0 && NoDuplicates(Ids(plan.families))
    requires forall x :: Plans(hash, plan, shard, None, x) ==>
               Plans(hash, plan, shard, Some(Executable), x) || Plans(hash, plan, shard, Some(Doctest), x)
    ensures KnownKinds(hash, plan, shard)
  {
    PlanIdsDistinct(plan);
    forall i: nat | i < |plan.families| && AssignedTo(hash, plan, i, shard)
      ensures plan.families[i].kind == Executable || plan.families[i].kind == Doctest
    {
      assert Plans(hash, plan, shard, None, plan.families[i].id);
    }
  }

  lemma ExpectedExact(plan: Plan, actual: seq<string>)
    requires NoDuplicates(Ids(plan.families))
    ensures Reconciles(Ids(plan.families), actual) <==> ListsPlan(plan, actual)
  {
    var ids := Ids(plan.families);
    forall id ensures id in ids <==> exists i :: 0 <= i < |plan.families| && plan.families[i].id == id {
      if i :| 0 <= i < |plan.families| && plan.families[i].id == id { assert ids[i] == id; }
    }
    ReconcilesInCounts(ids, actual);
    DistinctMeansOnce(ids);
  }

  lemma AssignedExact(hash: string -> nat, plan: Plan, shard: int, actual: seq<string>)
    requires plan.shards != 0 && NoDuplicates(Ids(plan.families))
    ensures Reconciles(Assigned(hash, Ids(plan.families), shard, plan.shards), actual) <==>
      ListsShard(hash, plan, shard, None, actual)
  {
    var assignedIds := Assigned(hash, Ids(plan.families), shard, plan.shards);
    AssignedOnce(hash, Ids(plan.families), shard, plan.shards);
    forall id ensures id in assignedIds <==> Plans(hash, plan, shard, None, id) { AssignedIsPlanned(hash, plan, shard, id); }
    ReconcilesInCounts(assignedIds, actual);
    DistinctMeansOnce(assignedIds);
  }

  lemma KindExact(hash: string -> nat, plan: Plan, shard: int, kind: Kind, actual: seq<string>)
    requires plan.shards != 0 && NoDuplicates(Ids(plan.families))
    ensures Reconciles(OfKind(plan.families, kind, Assigned(hash, Ids(plan.families), shard, plan.shards)), actual) <==>
      ListsShard(hash, plan, shard, Some(kind), actual)
  {
    var ids := OfKind(plan.families, kind, Assigned(hash, Ids(plan.families), shard, plan.shards));
    OfKindOnce(plan.families, kind, Assigned(hash, Ids(plan.families), shard, plan.shards));
    forall id ensures id in ids <==> Plans(hash, plan, shard, Some(kind), id) { KindIsPlanned(hash, plan, shard, kind, id); }
    ReconcilesInCounts(ids, actual);
    DistinctMeansOnce(ids);
  }

  lemma ConcatCounts(a: seq<Entry>, b: seq<Entry>, id: string)
    ensures multiset(EntryIds(a + b))[id] == multiset(EntryIds(a))[id] + multiset(EntryIds(b))[id]
  {
    EntryIdsConcat(a, b);
  }

  /** With both kinds listed, all entries are listed exactly when the shard has no family of another kind. */
  lemma BothKinds(hash: string -> nat, plan: Plan, shard: int, a: seq<Entry>, b: seq<Entry>)
    requires plan.shards != 0 && NoDuplicates(Ids(plan.families))
    requires ListsShard(hash, plan, shard, Some(Executable), EntryIds(a))
    requires ListsShard(hash, plan, shard, Some(Doctest), EntryIds(b))
    ensures ListsShard(hash, plan, shard, None, EntryIds(a + b)) <==> KnownKinds(hash, plan, shard)
  {
    forall id ensures multiset(EntryIds(a + b))[id] == One(Plans(hash, plan, shard, None, id)) <==>
                      (Plans(hash, plan, shard, None, id) ==>
                         Plans(hash, plan, shard, Some(Executable), id) || Plans(hash, plan, shard, Some(Doctest), id)) {
      ConcatCounts(a, b, id);
      OneKind(hash, plan, shard, id);
    }
    if ListsShard(hash, plan, shard, None, EntryIds(a + b)) {
      KnownFrom(hash, plan, shard);
    }
    if KnownKinds(hash, plan, shard) {
      forall id ensures multiset(EntryIds(a + b))[id] == One(Plans(hash, plan, shard, None, id)) { OneKind(hash, plan, shard, id); }
    }
  }

  lemma FamiliesExact(hash: string -> nat, plan: Plan, r: Report, s: SideReport)
    requires plan.shards != 0
    ensures FamiliesReconcile(hash, plan, r, s) <==> ListsFamilies(hash, plan, r, s)
  {
    PlanIdsDistinct(plan);
    if NoDuplicates(Ids(plan.families)) {
      ExpectedExact(plan, s.expected);
      AssignedExact(hash, plan, r.shard, s.assignedIds);
      AssignedExact(hash, plan, r.shard, EntryIds(s.families + s.doctests));
      KindExact(hash, plan, r.shard, Executable, EntryIds(s.families));
      KindExact(hash, plan, r.shard, Doctest, EntryIds(s.doctests));
      if FamiliesReconcile(hash, plan, r, s) || ListsFamilies(hash, plan, r, s) {
        BothKinds(hash, plan, r.shard, s.families, s.doctests);
      }
    }
  }

  function Block(id: string, repetitions: int): seq<(string, int)> {
    seq(|Range(repetitions)|, k requires 0 <= k < |Range(repetitions)| => (id, Range(repetitions)[k]))
  }

  lemma BlockCounts(id: string, repetitions: int, key: (string, int))
    ensures multiset(Block(id, repetitions))[key] == One(key.0 == id && 0 <= key.1 < repetitions)
  {
    var b := Block(id, repetitions);
    RangeLength(repetitions);
    forall k | 0 <= k < |b| ensures b[k] == (id, k) { RangeAt(repetitions, k); }
    if key.0 == id && 0 <= key.1 < repetitions {
      assert b[key.1] == key;
      OnceInside(b, key.1);
    } else {
      assert key !in b;
    }
  }

  lemma {:induction false} RepeatedCounts(es: seq<Entry>, repetitions: int, key: (string, int))
    ensures multiset(Repeated(es, repetitions))[key] == if 0 <= key.1 < repetitions then multiset(EntryIds(es))[key.0] else 0
  {
    if es != [] {
      RepeatedCounts(es[1..], repetitions, key);
      BlockCounts(es[0].id, repetitions, key);
      assert Repeated(es, repetitions) == Block(es[0].id, repetitions) + Repeated(es[1..], repetitions);
      assert EntryIds(es) == [es[0].id] + EntryIds(es[1..]);
    }
  }

  lemma RepeatedLists(es: seq<Entry>, repetitions: int)
    requires NoDuplicates(EntryIds(es))
    ensures ListsKeys(EntryIds(es), repetitions, Repeated(es, repetitions))
  {
    var all, ids := Repeated(es, repetitions), EntryIds(es);
    forall key: (string, int) ensures multiset(all)[key] == One(key.0 in ids && 0 <= key.1 < repetitions)
    {
      RepeatedCounts(es, repetitions, key);
      assert key.0 in ids <==> key.0 in multiset(ids);
    }
  }

  lemma KeysExact(es: seq<Entry>, repetitions: int, keys: seq<(string, int)>)
    requires NoDuplicates(EntryIds(es))
    ensures Reconciles(Repeated(es, repetitions), keys) <==> ListsKeys(EntryIds(es), repetitions, keys)
  {
    var all, ids := Repeated(es, repetitions), EntryIds(es);
    RepeatedLists(es, repetitions);
    forall key: (string, int) ensures key in all <==> key.0 in ids && 0 <= key.1 < repetitions {
      assert key in all <==> key in multiset(all);
    }
    assert NoDuplicates(all);
    ReconcilesInCounts(all, keys);
    DistinctMeansOnce(all);
  }

  /** The lists of samples, in the words of the source. */
  predicate SamplesReconcile(r: Report, side: Side, s: SideReport) {
    && 2 <= r.repetitions <= 20
    && Reconciles(Repeated(s.families, r.repetitions), Keys(s.observations))
    && Reconciles(EntryIds(s.doctests), SampleIds(s.doctestObservations))
    && (side.Base? ==> Reconciles(Repeated(s.families, r.repetitions), Keys(r.calibration)))
  }

  lemma SamplesExact(r: Report, side: Side, s: SideReport)
    requires NoDuplicates(EntryIds(s.families)) && NoDuplicates(EntryIds(s.doctests))
    ensures SamplesReconcile(r, side, s) <==> ListsSamples(r, side, s)
  {
    KeysExact(s.families, r.repetitions, Keys(s.observations));
    KeysExact(s.families, r.repetitions, Keys(r.calibration));
    ReconcilesInCounts(EntryIds(s.doctests), SampleIds(s.doctestObservations));
    DistinctMeansOnce(EntryIds(s.doctests));
  }

  lemma ListedOnce(hash: string -> nat, plan: Plan, shard: int, kind: Option<Kind>, ids: seq<string>)
    requires plan.shards != 0 && ListsShard(hash, plan, shard, kind, ids)
    ensures NoDuplicates(ids)
  {
    forall x | x in ids ensures multiset(ids)[x] == 1 { assert x in multiset(ids); }
  }

  lemma ListsSplit(hash: string -> nat, plan: Plan, r: Report, side: Side, s: SideReport)
    requires plan.shards != 0 && s == if side == Base then r.base else r.candidate
    ensures ListsReconcile(hash, plan, r, side) <==> FamiliesReconcile(hash, plan, r, s) && SamplesReconcile(r, side, s)
  {
  }

  /** The comparisons of lists, all together. */
  lemma ListsExact(hash: string -> nat, plan: Plan, r: Report, side: Side, s: SideReport)
    requires plan.shards != 0 && s == if side == Base then r.base else r.candidate
    ensures ListsReconcile(hash, plan, r, side) <==> ListsFamilies(hash, plan, r, s) && ListsSamples(r, side, s)
  {
    ListsSplit(hash, plan, r, side, s);
    FamiliesExact(hash, plan, r, s);
    if ListsFamilies(hash, plan, r, s) {
      ListedOnce(hash, plan, r.shard, Some(Executable), EntryIds(s.families));
      ListedOnce(hash, plan, r.shard, Some(Doctest), EntryIds(s.doctests));
      SamplesExact(r, side, s);
    }
  }

  lemma {:induction false} WorkCounts(flags: seq<bool>)
    ensures |flags| - Ignored(flags) == multiset(flags)[false]
  {
    if flags != [] {
      WorkCounts(flags[1..]);
      assert flags == [flags[0]] + flags[1..];
    }
  }

  /** The work of a family is its tests that are not ignored. */
  lemma WorkExact(e: Entry)
    ensures Work(e) == multiset(e.ignored)[false] && (Work(e) > 0 <==> false in e.ignored)
  {
    WorkCounts(e.ignored);
    assert false in e.ignored <==> false in multiset(e.ignored);
  }

  lemma {:induction false} ForFamilyHas(ss: seq<Sample>, s: Sample)
    requires s in ss
    ensures s in ForFamily(ss, s.id)
  {
    if s != ss[0] { ForFamilyHas(ss[1..], s); }
  }

  lemma {:induction false} ForFamilyOnly(ss: seq<Sample>, id: string, x: Sample)
    requires x in ForFamily(ss, id)
    ensures x in ss && x.id == id
  {
    if x in ForFamily(ss[1..], id) { ForFamilyOnly(ss[1..], id, x); }
  }

  lemma ForFamilyExact(ss: seq<Sample>, id: string, x: Sample)
    ensures x in ForFamily(ss, id) <==> x in ss && x.id == id
  {
    if x in ForFamily(ss, id) { ForFamilyOnly(ss, id, x); }
    if x in ss && x.id == id { ForFamilyHas(ss, x); }
  }

  lemma {:induction false} PlannedAt(fs: seq<Family>, i: nat)
    requires i < |fs| && forall j, k :: 0 <= j < k < |fs| ==> fs[j].id != fs[k].id
    ensures Planned(fs, fs[i].id) == Some(fs[i])
  {
    if i > 0 { PlannedAt(fs[1..], i - 1); }
  }

  lemma {:induction false} PlannedIs(fs: seq<Family>, id: string) returns (i: nat)
    requires Planned(fs, id).Some?
    ensures i < |fs| && fs[i].id == id && Planned(fs, id) == Some(fs[i])
  {
    if fs[0].id == id {
      i := 0;
    } else {
      i := PlannedIs(fs[1..], id);
      i := i + 1;
    }
  }

  /** The fixture declaration of the entry is the planned one. */
  ghost predicate Declared(plan: Plan, e: Entry) {
    exists i :: 0 <= i < |plan.families| && plan.families[i].id == e.id && plan.families[i].policy == e.policy
  }

  lemma DeclaredExact(plan: Plan, e: Entry)
    requires forall i, j :: 0 <= i < j < |plan.families| ==> plan.families[i].id != plan.families[j].id
    ensures var planned := Planned(plan.families, e.id);
            Declared(plan, e) <==> planned.Some? && planned.value.policy == e.policy
  {
    if Declared(plan, e) {
      var i :| 0 <= i < |plan.families| && plan.families[i].id == e.id && plan.families[i].policy == e.policy;
      PlannedAt(plan.families, i);
    }
    if Planned(plan.families, e.id).Some? { var i := PlannedIs(plan.families, e.id); }
  }

  /** What is asked of the samples of one entry. */
  ghost predicate EntryRan(e: Entry, executable: bool, samples: seq<Sample>) {
    false in e.ignored ==>
      && (forall x :: x in samples && x.id == e.id ==> RanAll(x, e))
      && (executable ==> e.hasRuntime && forall x :: x in samples && x.id == e.id ==> x.sameRuntime)
  }

  /** Every execution succeeded, or was not measured. */
  predicate NoneFailed(samples: seq<Sample>) {
    forall x :: x in samples ==> x.state == Valid || x.state == Unmeasured
  }

  /** Every entry is declared as planned and ran. */
  ghost predicate AllRan(plan: Plan, es: seq<Entry>, executable: bool, samples: seq<Sample>) {
    forall e :: e in es ==> Declared(plan, e) && EntryRan(e, executable, samples)
  }

  /** The report belongs to the plan, and its lists are right. */
  ghost predicate RightLists(hash: string -> nat, plan: Plan, r: Report, side: Side, s: SideReport)
    requires plan.shards != 0
  {
    s.matches && ListsFamilies(hash, plan, r, s) && ListsSamples(r, side, s)
  }

  /**
   A report as it should be: its lists are those of the plan and the shard, no execution failed or was
   collected wrongly, the fixture declarations are the planned ones, and every family with a test that is
   not ignored has run all of them, executables in the runtime of the manifest.
   */
  ghost predicate WellReported(hash: string -> nat, plan: Plan, r: Report, side: Side)
    requires plan.shards != 0
  {
    var s := if side == Base then r.base else r.candidate;
    var samples := s.observations + s.doctestObservations + (if side == Base then r.calibration else []);
    && RightLists(hash, plan, r, side, s)
    && NoneFailed(s.observations + s.doctestObservations + r.calibration)
    && AllRan(plan, s.families, true, samples) && AllRan(plan, s.doctests, false, samples)
  }

  /** The checks of one entry, once none of its samples has failed and it has at least one. */
  lemma EntryExact(plan: Plan, r: Report, side: Side, e: Entry)
    requires forall i, j :: 0 <= i < j < |plan.families| ==> plan.families[i].id != plan.families[j].id
    requires exists x :: x in AllSamples(r, side) && x.id == e.id
    requires forall x :: x in AllSamples(r, side) ==> x.state != FunctionalFailure
    ensures CheckEntry(plan, r, side, e) == None <==>
      Declared(plan, e) && EntryRan(e, e in Of(r, side).families, AllSamples(r, side))
  {
    DeclaredExact(plan, e);
    WorkExact(e);
    var samples, observations := AllSamples(r, side), ObservationsOf(r, side, e.id);
    forall x ensures x in observations <==> x in samples && x.id == e.id { ForFamilyExact(samples, e.id, x); }
    forall x ensures Complete(x, e) <==> RanAll(x, e) {}
  }

  lemma InCounts<T>(s: seq<T>, x: T)
    ensures x in s <==> multiset(s)[x] > 0
  {
    assert x in s <==> x in multiset(s);
  }

  /** Every entry has a sample. */
  lemma EntryHasSample(r: Report, side: Side, s: SideReport, e: Entry) returns (x: Sample)
    requires s == (if side == Base then r.base else r.candidate) && ListsSamples(r, side, s) && e in s.families + s.doctests
    ensures x in AllSamples(r, side) && x.id == e.id
  {
    if e in s.families {
      var i :| 0 <= i < |s.families| && s.families[i] == e;
      assert EntryIds(s.families)[i] == e.id;
      var keys := Keys(s.observations);
      InCounts(keys, (e.id, 0));
      var j :| 0 <= j < |keys| && keys[j] == (e.id, 0);
      x := s.observations[j];
    } else {
      var i :| 0 <= i < |s.doctests| && s.doctests[i] == e;
      assert EntryIds(s.doctests)[i] == e.id;
      var ids := SampleIds(s.doctestObservations);
      InCounts(ids, e.id);
      var j :| 0 <= j < |ids| && ids[j] == e.id;
      x := s.doctestObservations[j];
    }
  }

  lemma EntryIsPlanned(hash: string -> nat, plan: Plan, shard: int, kind: Option<Kind>, ids: seq<string>, id: string)
    requires plan.shards != 0 && ListsShard(hash, plan, shard, kind, ids) && id in ids
    ensures Plans(hash, plan, shard, kind, id)
  {
    InCounts(ids, id);
  }

  /** No entry is in both lists. */
  lemma ListsAreApart(hash: string -> nat, plan: Plan, r: Report, s: SideReport, e: Entry)
    requires plan.shards != 0 && ListsFamilies(hash, plan, r, s) && e in s.doctests
    ensures e !in s.families
  {
    PlanIdsDistinct(plan);
    OneKind(hash, plan, r.shard, e.id);
    var i :| 0 <= i < |s.doctests| && s.doctests[i] == e;
    assert EntryIds(s.doctests)[i] == e.id;
    EntryIsPlanned(hash, plan, r.shard, Some(Doctest), EntryIds(s.doctests), e.id);
    if e in s.families {
      var j :| 0 <= j < |s.families| && s.families[j] == e;
      assert EntryIds(s.families)[j] == e.id;
      EntryIsPlanned(hash, plan, r.shard, Some(Executable), EntryIds(s.families), e.id);
    }
  }

  /** Every sample belongs to a family of the shard. */
  lemma SampleIsAssigned(hash: string -> nat, plan: Plan, r: Report, side: Side, s: SideReport, x: Sample)
    requires plan.shards != 0 && s == if side == Base then r.base else r.candidate
    requires ListsFamilies(hash, plan, r, s) && ListsSamples(r, side, s) && x in s.observations + s.doctestObservations
    ensures x.id in Assigned(hash, Ids(plan.families), r.shard, plan.shards)
  {
    if x in s.observations {
      var j :| 0 <= j < |s.observations| && s.observations[j] == x;
      assert Keys(s.observations)[j] == (x.id, x.repetition);
      InCounts(Keys(s.observations), (x.id, x.repetition));
      EntryIsPlanned(hash, plan, r.shard, Some(Executable), EntryIds(s.families), x.id);
    } else {
      var j :| 0 <= j < |s.doctestObservations| && s.doctestObservations[j] == x;
      assert SampleIds(s.doctestObservations)[j] == x.id;
      InCounts(SampleIds(s.doctestObservations), x.id);
      EntryIsPlanned(hash, plan, r.shard, Some(Doctest), EntryIds(s.doctests), x.id);
    }
    PlanIdsDistinct(plan);
    OneKind(hash, plan, r.shard, x.id);
    AssignedIsPlanned(hash, plan, r.shard, x.id);
  }

  lemma {:induction false} EntriesPassAll(check: Entry -> Option<Failure>, es: seq<Entry>)
    ensures EntriesPass(check, es) <==> forall e :: e in es ==> check(e) == None
  {
    if es != [] {
      var k := |es| - 1;
      EntriesPassAll(check, es[..k]);
      assert es == es[..k] + [es[k]];
    }
  }

  lemma SamplesAreAssigned(hash: string -> nat, plan: Plan, r: Report, side: Side, s: SideReport)
    requires plan.shards != 0 && s == if side == Base then r.base else r.candidate
    requires RightLists(hash, plan, r, side, s)
    ensures forall x :: x in Samples(r, side) ==> x.id in Assigned(hash, Ids(plan.families), r.shard, plan.shards)
  {
    forall x | x in Samples(r, side) ensures x.id in Assigned(hash, Ids(plan.families), r.shard, plan.shards) {
      SampleIsAssigned(hash, plan, r, side, s, x);
    }
  }

  lemma StatesExact(ss: seq<Sample>)
    ensures !HasState(ss, FunctionalFailure) && !HasState(ss, OtherState) <==> NoneFailed(ss)
  {
  }

  /** A test failed in a report whose lists are right. */
  ghost predicate TestFailed(hash: string -> nat, plan: Plan, r: Report, side: Side)
    requires plan.shards != 0
  {
    var s := if side == Base then r.base else r.candidate;
    && RightLists(hash, plan, r, side, s)
    && exists x :: x in s.observations + s.doctestObservations + r.calibration && x.state == FunctionalFailure
  }

  /** The checks before the entries, in these terms. */
  lemma CheckReportExact(hash: string -> nat, plan: Plan, r: Report, side: Side, s: SideReport)
    requires plan.shards != 0 && s == if side == Base then r.base else r.candidate
    ensures CheckReport(hash, plan, r, side) == None <==>
      RightLists(hash, plan, r, side, s) && NoneFailed(s.observations + s.doctestObservations + r.calibration)
    ensures CheckReport(hash, plan, r, side) == Some(FunctionalFailed) <==> TestFailed(hash, plan, r, side)
  {
    ListsExact(hash, plan, r, side, s);
    StatesExact(s.observations + s.doctestObservations + r.calibration);
    if RightLists(hash, plan, r, side, s) { SamplesAreAssigned(hash, plan, r, side, s); }
  }

  /** The checks of one entry of a report whose lists are right. */
  lemma ListedEntryExact(hash: string -> nat, plan: Plan, r: Report, side: Side, s: SideReport, e: Entry)
    requires plan.shards != 0 && s == if side == Base then r.base else r.candidate
    requires RightLists(hash, plan, r, side, s)
    requires NoneFailed(s.observations + s.doctestObservations + r.calibration) && e in s.families + s.doctests
    ensures CheckEntry(plan, r, side, e) == None <==> Declared(plan, e) && EntryRan(e, e in s.families, AllSamples(r, side))
  {
    var x := EntryHasSample(r, side, s, e);
    EntryExact(plan, r, side, e);
  }

  lemma EntriesExact(hash: string -> nat, plan: Plan, r: Report, side: Side, s: SideReport)
    requires plan.shards != 0 && s == if side == Base then r.base else r.candidate
    requires RightLists(hash, plan, r, side, s)
    requires NoneFailed(s.observations + s.doctestObservations + r.calibration)
    ensures EntriesPass(Checks(plan, r, side), Entries(r, side)) <==>
      AllRan(plan, s.families, true, AllSamples(r, side)) && AllRan(plan, s.doctests, false, AllSamples(r, side))
  {
    var samples := AllSamples(r, side);
    EntriesPassAll(Checks(plan, r, side), Entries(r, side));
    forall e | e in s.families ensures CheckEntry(plan, r, side, e) == None <==> Declared(plan, e) && EntryRan(e, true, samples) {
      ListedEntryExact(hash, plan, r, side, s, e);
    }
    forall e | e in s.doctests ensures CheckEntry(plan, r, side, e) == None <==> Declared(plan, e) && EntryRan(e, false, samples) {
      ListedEntryExact(hash, plan, r, side, s, e);
      ListsAreApart(hash, plan, r, s, e);
    }
    SplitEntries(Checks(plan, r, side), s.families, s.doctests);
  }

  lemma SplitEntries(check: Entry -> Option<Failure>, a: seq<Entry>, b: seq<Entry>)
    ensures (forall e :: e in a + b ==> check(e) == None)
       <==> (forall e :: e in a ==> check(e) == None) && (forall e :: e in b ==> check(e) == None)
  {
    forall e ensures e in a + b <==> e in a || e in b {}
  }

  lemma SamplesOf(r: Report, side: Side, s: SideReport)
    requires s == if side == Base then r.base else r.candidate
    ensures AllSamples(r, side) == s.observations + s.doctestObservations + if side == Base then r.calibration else []
  {
  }

  /** A report passes all checks exactly when it is as it should be. */
  lemma ReportExact(hash: string -> nat, plan: Plan, r: Report, side: Side)
    requires plan.shards != 0
    ensures ReportPasses(hash, plan, r, side) <==> WellReported(hash, plan, r, side)
  {
    var s := if side == Base then r.base else r.candidate;
    CheckReportExact(hash, plan, r, side, s);
    SamplesOf(r, side, s);
    if RightLists(hash, plan, r, side, s) && NoneFailed(s.observations + s.doctestObservations + r.calibration) {
      EntriesExact(hash, plan, r, side, s);
    }
  }

  // ----- An honest report -----

  predicate ArePlanned(fs: seq<Family>, ids: seq<string>) {
    forall i :: 0 <= i < |ids| ==> Planned(fs, ids[i]).Some?
  }

  /** Entries of the ids as planned, with the given tests. */
  function HonestEntries(plan: Plan, ids: seq<string>, tests: string -> seq<bool>): (es: seq<Entry>)
    requires ArePlanned(plan.families, ids)
    ensures |es| == |ids|
  {
    seq(|ids|, i requires 0 <= i < |ids| => Entry(ids[i], Planned(plan.families, ids[i]).value.policy, tests(ids[i]), true, map[]))
  }

  /** A successful execution of all tests that are not ignored. */
  function HonestSample(key: (string, int), tests: string -> seq<bool>): Sample {
    Sample(key.0, key.1, Valid, |tests(key.0)|, Some(multiset(tests(key.0))[false]), true)
  }

  function HonestSamples(keys: seq<(string, int)>, tests: string -> seq<bool>): seq<Sample> {
    seq(|keys|, i requires 0 <= i < |keys| => HonestSample(keys[i], tests))
  }

  /** Each doctest once. */
  function Once(ids: seq<string>): seq<(string, int)> {
    seq(|ids|, i requires 0 <= i < |ids| => (ids[i], 0))
  }

  lemma {:induction false} PlannedSome(fs: seq<Family>, k: nat)
    requires k < |fs|
    ensures Planned(fs, fs[k].id).Some?
  {
    if k > 0 && fs[0].id != fs[k].id { PlannedSome(fs[1..], k - 1); }
  }

  lemma AllPlanned(fs: seq<Family>, kind: Kind, assignedIds: seq<string>)
    ensures ArePlanned(fs, OfKind(fs, kind, assignedIds))
  {
    var ids := OfKind(fs, kind, assignedIds);
    forall i | 0 <= i < |ids| ensures Planned(fs, ids[i]).Some? {
      var k := OfKindOnly(fs, kind, assignedIds, ids[i]);
      PlannedSome(fs, k);
    }
  }

  function HonestKind(plan: Plan, kind: Kind, assignedIds: seq<string>, tests: string -> seq<bool>): seq<Entry> {
    AllPlanned(plan.families, kind, assignedIds);
    HonestEntries(plan, OfKind(plan.families, kind, assignedIds), tests)
  }

  /** What a shard that did all its work reports of a side. */
  function HonestSide(hash: string -> nat, plan: Plan, shard: int, repetitions: int, tests: string -> seq<bool>): SideReport
    requires plan.shards != 0
  {
    var assignedIds := Assigned(hash, Ids(plan.families), shard, plan.shards);
    var families := HonestKind(plan, Executable, assignedIds, tests);
    SideReport(true, Ids(plan.families), assignedIds, families, HonestKind(plan, Doctest, assignedIds, tests),
               HonestSamples(Repeated(families, repetitions), tests),
               HonestSamples(Once(OfKind(plan.families, Doctest, assignedIds)), tests))
  }

  function HonestReport(hash: string -> nat, base: Plan, candidate: Plan, shard: int, repetitions: int, tests: string -> seq<bool>): Report
    requires base.shards != 0 && candidate.shards != 0
  {
    var b := HonestSide(hash, base, shard, repetitions, tests);
    Report(shard, repetitions, b, HonestSide(hash, candidate, shard, repetitions, tests), b.observations)
  }

  lemma HonestLists(plan: Plan, ids: seq<string>, tests: string -> seq<bool>)
    requires ArePlanned(plan.families, ids)
    ensures EntryIds(HonestEntries(plan, ids, tests)) == ids
    ensures SampleIds(HonestSamples(Once(ids), tests)) == ids
  {
  }

  lemma HonestKeys(keys: seq<(string, int)>, tests: string -> seq<bool>)
    ensures Keys(HonestSamples(keys, tests)) == keys
  {
    assert forall i :: 0 <= i < |keys| ==> Keys(HonestSamples(keys, tests))[i] == keys[i];
  }

  /** What every honest sample says. */
  predicate IsHonest(x: Sample, tests: string -> seq<bool>) {
    x.state == Valid && x.requested == |tests(x.id)| && x.completed == Some(multiset(tests(x.id))[false]) && x.sameRuntime
  }

  lemma HonestOnly(keys: seq<(string, int)>, tests: string -> seq<bool>, x: Sample)
    requires x in HonestSamples(keys, tests)
    ensures IsHonest(x, tests)
  {
  }

  lemma HonestEntryRan(plan: Plan, ids: seq<string>, tests: string -> seq<bool>, executable: bool, samples: seq<Sample>)
    requires ArePlanned(plan.families, ids)
    requires forall x :: x in samples ==> IsHonest(x, tests)
    ensures AllRan(plan, HonestEntries(plan, ids, tests), executable, samples)
  {
    var es := HonestEntries(plan, ids, tests);
    forall e | e in es ensures Declared(plan, e) && EntryRan(e, executable, samples) {
      var i :| 0 <= i < |es| && es[i] == e;
      var k := PlannedIs(plan.families, ids[i]);
    }
  }

  lemma HonestKindLists(hash: string -> nat, plan: Plan, shard: int, kind: Kind, tests: string -> seq<bool>)
    requires plan.shards != 0 && NoDuplicates(Ids(plan.families))
    ensures var assignedIds := Assigned(hash, Ids(plan.families), shard, plan.shards);
            var ids := EntryIds(HonestKind(plan, kind, assignedIds, tests));
            && ids == OfKind(plan.families, kind, assignedIds) && NoDuplicates(ids)
            && ListsShard(hash, plan, shard, Some(kind), ids)
  {
    var assignedIds := Assigned(hash, Ids(plan.families), shard, plan.shards);
    var ids := OfKind(plan.families, kind, assignedIds);
    AllPlanned(plan.families, kind, assignedIds);
    HonestLists(plan, ids, tests);
    OfKindOnce(plan.families, kind, assignedIds);
    KindExact(hash, plan, shard, kind, ids);
  }

  lemma HonestFamilies(hash: string -> nat, plan: Plan, r: Report, s: SideReport, tests: string -> seq<bool>)
    requires plan.shards != 0 && NoDuplicates(Ids(plan.families)) && KnownKinds(hash, plan, r.shard)
    requires s == HonestSide(hash, plan, r.shard, r.repetitions, tests)
    ensures ListsFamilies(hash, plan, r, s)
  {
    var ids := Ids(plan.families);
    PlanIdsDistinct(plan);
    ExpectedExact(plan, ids);
    AssignedOnce(hash, ids, r.shard, plan.shards);
    AssignedExact(hash, plan, r.shard, Assigned(hash, ids, r.shard, plan.shards));
    HonestKindLists(hash, plan, r.shard, Executable, tests);
    HonestKindLists(hash, plan, r.shard, Doctest, tests);
  }

  lemma OnceLists(ids: seq<string>, id: string)
    requires NoDuplicates(ids)
    ensures multiset(ids)[id] == One(id in ids)
  {
    InCounts(ids, id);
  }

  lemma HonestSampleLists(hash: string -> nat, plan: Plan, r: Report, side: Side, s: SideReport, tests: string -> seq<bool>)
    requires plan.shards != 0 && NoDuplicates(Ids(plan.families)) && 2 <= r.repetitions <= 20
    requires s == HonestSide(hash, plan, r.shard, r.repetitions, tests) && (side.Base? ==> r.calibration == s.observations)
    ensures ListsSamples(r, side, s)
  {
    var assignedIds := Assigned(hash, Ids(plan.families), r.shard, plan.shards);
    HonestKindLists(hash, plan, r.shard, Executable, tests);
    HonestKindLists(hash, plan, r.shard, Doctest, tests);
    RepeatedLists(s.families, r.repetitions);
    HonestKeys(Repeated(s.families, r.repetitions), tests);
    AllPlanned(plan.families, Doctest, assignedIds);
    HonestLists(plan, OfKind(plan.families, Doctest, assignedIds), tests);
    forall id ensures multiset(SampleIds(s.doctestObservations))[id] == One(id in EntryIds(s.doctests)) {
      OnceLists(EntryIds(s.doctests), id);
    }
  }

  lemma HonestRuns(hash: string -> nat, plan: Plan, r: Report, side: Side, s: SideReport, tests: string -> seq<bool>)
    requires plan.shards != 0 && s == HonestSide(hash, plan, r.shard, r.repetitions, tests)
    requires forall x :: x in r.calibration ==> IsHonest(x, tests)
    ensures NoneFailed(s.observations + s.doctestObservations + r.calibration)
    ensures var samples := s.observations + s.doctestObservations + (if side == Base then r.calibration else []);
            AllRan(plan, s.families, true, samples) && AllRan(plan, s.doctests, false, samples)
  {
    var assignedIds := Assigned(hash, Ids(plan.families), r.shard, plan.shards);
    var samples := s.observations + s.doctestObservations + (if side == Base then r.calibration else []);
    forall x | x in s.observations + s.doctestObservations + r.calibration ensures IsHonest(x, tests) {
      if x in s.observations {
        HonestOnly(Repeated(s.families, r.repetitions), tests, x);
      } else if x in s.doctestObservations {
        HonestOnly(Once(OfKind(plan.families, Doctest, assignedIds)), tests, x);
      }
    }
    AllPlanned(plan.families, Executable, assignedIds);
    AllPlanned(plan.families, Doctest, assignedIds);
    HonestEntryRan(plan, OfKind(plan.families, Executable, assignedIds), tests, true, samples);
    HonestEntryRan(plan, OfKind(plan.families, Doctest, assignedIds), tests, false, samples);
  }

  /**
   The report of a shard that did all its work passes on both sides: for every plan with distinct ids and known
   kinds, every shard, every number of repetitions from 2 to 20, and whatever tests the families have.
   */
  lemma HonestReportPasses(hash: string -> nat, base: Plan, candidate: Plan, shard: int, repetitions: int,
                           tests: string -> seq<bool>, side: Side)
    requires base.shards >= 1 && candidate.shards >= 1 && 2 <= repetitions <= 20
    requires var plan := if side.Base? then base else candidate;
             NoDuplicates(Ids(plan.families)) && KnownKinds(hash, plan, shard)
    ensures ReportPasses(hash, if side.Base? then base else candidate, HonestReport(hash, base, candidate, shard, repetitions, tests), side)
  {
    var plan := if side.Base? then base else candidate;
    var r := HonestReport(hash, base, candidate, shard, repetitions, tests);
    var s := HonestSide(hash, plan, shard, repetitions, tests);
    forall x | x in r.calibration ensures IsHonest(x, tests) { HonestOnly(Repeated(r.base.families, repetitions), tests, x); }
    HonestFamilies(hash, plan, r, s, tests);
    HonestSampleLists(hash, plan, r, side, s, tests);
    HonestRuns(hash, plan, r, side, s, tests);
    ReportExact(hash, plan, r, side);
  }

  // ----- What acceptance says about one family -----

  lemma PassedParts(hash: string -> nat, plan: Plan, r: Report, side: Side, s: SideReport)
    requires plan.shards != 0 && s == Of(r, side) && ReportPasses(hash, plan, r, side)
    ensures RightLists(hash, plan, r, side, s)
    ensures AllRan(plan, s.families, true, AllSamples(r, side)) && AllRan(plan, s.doctests, false, AllSamples(r, side))
  {
    ReportExact(hash, plan, r, side);
    SamplesOf(r, side, s);
  }

  lemma FamilyIsListed(hash: string -> nat, plan: Plan, r: Report, side: Side, s: SideReport, i: nat, k: int)
    requires plan.shards != 0 && RightLists(hash, plan, r, side, s) && i < |s.families| && 0 <= k < r.repetitions
    ensures Plans(hash, plan, r.shard, Some(Executable), s.families[i].id)
    ensures multiset(Keys(s.observations))[(s.families[i].id, k)] == 1
    ensures side.Base? ==> multiset(Keys(r.calibration))[(s.families[i].id, k)] == 1
  {
    var ids := EntryIds(s.families);
    assert ids[i] in ids;
    EntryIsPlanned(hash, plan, r.shard, Some(Executable), ids, ids[i]);
  }

  /**
   In an accepted report an entry of the families is a planned executable of the shard, and every repetition of
   it was observed exactly once, on the base side in the calibration too. If it has tests to run, each of these
   samples ran all of them in the runtime of its manifest.
   */
  lemma AcceptedFamilyRan(hash: string -> nat, plan: Plan, r: Report, side: Side, i: nat, k: int)
    requires plan.shards != 0 && ReportPasses(hash, plan, r, side)
    requires i < |Of(r, side).families| && 0 <= k < r.repetitions
    ensures var e := Of(r, side).families[i];
            && Plans(hash, plan, r.shard, Some(Executable), e.id)
            && multiset(Keys(Of(r, side).observations))[(e.id, k)] == 1
            && (side.Base? ==> multiset(Keys(r.calibration))[(e.id, k)] == 1)
            && EntryRan(e, true, AllSamples(r, side))
  {
    PassedParts(hash, plan, r, side, Of(r, side));
    FamilyIsListed(hash, plan, r, side, Of(r, side), i, k);
  }

  /** The same for a doctest, which runs once. */
  lemma AcceptedDoctestRan(hash: string -> nat, plan: Plan, r: Report, side: Side, i: nat)
    requires plan.shards != 0 && ReportPasses(hash, plan, r, side) && i < |Of(r, side).doctests|
    ensures var e := Of(r, side).doctests[i];
            && Plans(hash, plan, r.shard, Some(Doctest), e.id)
            && multiset(SampleIds(Of(r, side).doctestObservations))[e.id] == 1
            && EntryRan(e, false, AllSamples(r, side))
  {
    PassedParts(hash, plan, r, side, Of(r, side));
    var ids := EntryIds(Of(r, side).doctests);
    assert ids[i] in ids;
    EntryIsPlanned(hash, plan, r.shard, Some(Doctest), ids, ids[i]);
  }
}
