/**
 The fan-out of a measurement campaign over CI workers: the seed list (`seed_union`), the runs
 each worker owes (`ci_expected_runs`), and the check of what all workers reported
 (`check_ci_workers`).
 */
module CiWorkers {
  import opened Wrappers
  import opened Reports
  import opened Sequences
  import opened Totals

  // ----- The seeds -----

  datatype Status = Open | Closed | UnknownStatus

  /** A registry entry; its value is none when it is not an integer or a readable numeral. */
  datatype SeedEntry = SeedEntry(status: Status, value: Option<int>)

  const U64 := 0x1_0000_0000_0000_0000
  const FIXED := 32

  predicate GoodEntry(e: SeedEntry) {
    match e.status
    case Closed => true
    case Open => e.value.Some? && 0 <= e.value.value < U64
    case UnknownStatus => false
  }

  ghost predicate IsSeed(entries: seq<SeedEntry>, v: int) {
    1 <= v <= 32 || SeedEntry(Open, Some(v)) in entries
  }

  function Insert(s: seq<int>, v: int): (r: seq<int>)
    requires Ascending(s) && v !in s
    ensures Ascending(r) && |r| == |s| + 1
    ensures forall x :: x in r <==> x in s || x == v
    ensures r[0] == if s == [] || v < s[0] then v else s[0]
  {
    if s == [] then [v]
    else if v < s[0] then [v] + s
    else
      var rest := Insert(s[1..], v);
      assert forall x :: x in s <==> x == s[0] || x in s[1..];
      assert rest[0] > s[0];
      [s[0]] + rest
  }

  function UpTo(n: int): (r: seq<int>)
    ensures Ascending(r) && forall v :: v in r <==> 1 <= v <= n
    decreases n
  {
    if n <= 0 then []
    else
      var rest := UpTo(n - 1);
      assert forall i :: 0 <= i < |rest| ==> rest[i] in rest;
      rest + [n]
  }

  lemma OnceInAscending(s: seq<int>, i: nat)
    requires Ascending(s) && i < |s|
    ensures multiset(s)[s[i]] == 1
  {
    var before, after := s[..i], s[i + 1..];
    assert s[i] !in before && s[i] !in after;
    assert s == before + [s[i]] + after;
    assert multiset(s) == multiset(before) + multiset{s[i]} + multiset(after);
  }

  lemma AscendingHasNoDuplicates(s: seq<int>)
    requires Ascending(s)
    ensures NoDuplicates(s)
  {
    forall x | x in s ensures multiset(s)[x] == 1 {
      var i :| 0 <= i < |s| && s[i] == x;
      OnceInAscending(s, i);
    }
  }

  /**
   The fixed replay seeds and every open seed of the registries (their entries one after the
   other), each once and in ascending order. The set that collects them is kept as its
   ascending list.
   */
  method SeedUnion(entries: seq<SeedEntry>) returns (r: Option<seq<int>>)
    ensures r.Some? <==>
      forall e :: e in entries ==>
        e.status == Closed || (e.status == Open && e.value.Some? && 0 <= e.value.value <= 0xffff_ffff_ffff_ffff)
    ensures r.Some? ==> Ascending(r.value) && NoDuplicates(r.value) && forall v :: v in r.value <==> IsSeed(entries, v)
  {
    var fixed := FIXED;
    var values := UpTo(fixed);
    for i := 0 to |entries|
      invariant forall e :: e in entries[..i] ==> GoodEntry(e)
      invariant Ascending(values) && forall v :: v in values <==> IsSeed(entries[..i], v)
    {
      var entry := entries[i];
      assert entries[..i + 1] == entries[..i] + [entry];
      if !GoodEntry(entry) {
        assert entry in entries;
        return None;
      }
      if entry.status.Open? && entry.value.value !in values { values := Insert(values, entry.value.value); }
    }
    assert entries[..|entries|] == entries;
    AscendingHasNoDuplicates(values);
    r := Some(values);
  }

  // ----- The runs -----

  // These are strings in the reports: a worker may report any other name too.
  datatype Axis = AllFeatures | NoBuggify | OtherAxis(name: string)
  datatype Runtime = Tokio | MoonpoolRuntime | OtherRuntime(name: string)
  datatype Scenario = Producer | Consumer | Roundtrip | Idle | OtherScenario(name: string)
  datatype WorkerKind = Workspace | Moonpool | Scenarios | OtherKind(name: string)

  datatype Run = Run(axis: Axis, seed: int, shard: int, runtime: Option<Runtime>, scenario: Option<Scenario>)

  datatype Payload = Payload(shards: int, seedWorkers: int, seeds: seq<int>, revisions: string)

  datatype Worker = Worker(kind: WorkerKind, index: int, revisions: string, runs: seq<Run>)

  function WorkspaceRun(shard: int): Run {
    Run(AllFeatures, 17, shard, None, None)
  }

  function SeedRun(seed: int): Run {
    Run(NoBuggify, seed, 0, None, None)
  }

  function ScenarioRun(runtime: Runtime, scenario: Scenario): Run {
    Run(AllFeatures, 17, 0, Some(runtime), Some(scenario))
  }

  function RuntimeRuns(runtime: Runtime): seq<Run> {
    [ScenarioRun(runtime, Producer)] + [ScenarioRun(runtime, Consumer)]
    + ([ScenarioRun(runtime, Roundtrip)] + [ScenarioRun(runtime, Idle)])
  }

  function ScenarioRuns(): seq<Run> {
    RuntimeRuns(Tokio) + RuntimeRuns(MoonpoolRuntime)
  }

  /** The seeds at the positions `worker`, `worker + workers`, and so on. */
  function EveryNth(seeds: seq<int>, workers: int, worker: int): seq<Run>
    requires workers != 0
  {
    if seeds == [] then []
    else
      var k := |seeds| - 1;
      EveryNth(seeds[..k], workers, worker) + (if k % workers == worker then [SeedRun(seeds[k])] else [])
  }

  type Slot = (WorkerKind, int)

  /** The runs a worker owes, without the shard count; none for an unexpected worker. */
  function ExpectedRuns(p: Payload, slot: Slot): Option<seq<Run>> {
    match slot.0
    case Workspace => if 0 <= slot.1 < p.shards then Some([WorkspaceRun(slot.1)]) else None
    case Moonpool => if 0 <= slot.1 < p.seedWorkers then Some(EveryNth(p.seeds, p.seedWorkers, slot.1)) else None
    case Scenarios => if slot.1 == 0 then Some(ScenarioRuns()) else None
    case OtherKind(_) => None
  }

  function SlotsOf(kind: WorkerKind, n: int): seq<Slot>
    decreases n
  {
    if n <= 0 then [] else SlotsOf(kind, n - 1) + [(kind, n - 1)]
  }

  function ExpectedSlots(p: Payload): seq<Slot> {
    SlotsOf(Workspace, p.shards) + SlotsOf(Moonpool, p.seedWorkers) + [(Scenarios, 0)]
  }

  function ReportedSlots(ws: seq<Worker>): seq<Slot> {
    seq(|ws|, i requires 0 <= i < |ws| => (ws[i].kind, ws[i].index))
  }

  predicate WorkerPasses(p: Payload, w: Worker) {
    var wanted := ExpectedRuns(p, (w.kind, w.index));
    w.revisions == p.revisions && wanted.Some? && Reconciles(wanted.value, w.runs)
  }

  /** `check_ci_workers`, true when it does not raise. */
  predicate CheckCiWorkers(p: Payload, ws: seq<Worker>) {
    Reconciles(ExpectedSlots(p), ReportedSlots(ws)) && forall w :: w in ws ==> WorkerPasses(p, w)
  }

  // ----- How often a run is owed -----

  /** How often `r` is among the runs a worker owes. */
  function Owed(p: Payload, r: Run): Slot -> nat {
    slot => var runs := ExpectedRuns(p, slot); if runs.None? then 0 else multiset(runs.value)[r]
  }

  /** How often `r` is among the runs the workers reported. */
  function Reported(ws: seq<Worker>, r: Run): nat {
    if ws == [] then 0 else Reported(ws[..|ws| - 1], r) + multiset(ws[|ws| - 1].runs)[r]
  }

  lemma PassedWorker(p: Payload, w: Worker, r: Run)
    requires WorkerPasses(p, w)
    ensures multiset(w.runs)[r] == Owed(p, r)((w.kind, w.index))
  {
  }

  lemma {:induction false} ReportedIsOwed(p: Payload, ws: seq<Worker>, r: Run)
    requires forall w :: w in ws ==> WorkerPasses(p, w)
    ensures Reported(ws, r) == Total(Owed(p, r), ReportedSlots(ws))
  {
    if ws != [] {
      var k := |ws| - 1;
      ReportedIsOwed(p, ws[..k], r);
      PassedWorker(p, ws[k], r);
      TotalSnoc(Owed(p, r), ReportedSlots(ws[..k]), (ws[k].kind, ws[k].index));
      assert ReportedSlots(ws) == ReportedSlots(ws[..k]) + [(ws[k].kind, ws[k].index)];
    }
  }

  lemma {:induction false} SlotsTotal(f: Slot -> nat, kind: WorkerKind, g: int -> nat, n: int)
    requires forall k :: 0 <= k < n ==> f((kind, k)) == g(k)
    ensures Total(f, SlotsOf(kind, n)) == Total(g, Range(n))
    decreases n
  {
    if n > 0 {
      SlotsTotal(f, kind, g, n - 1);
      var slot: Slot := (kind, n - 1);
      TotalSnoc(f, SlotsOf(kind, n - 1), slot);
      TotalSnoc(g, Range(n - 1), n - 1);
      assert f(slot) == g(n - 1);
    }
  }

  /** Raising one term by one raises the sum by one. */
  lemma {:induction false} RaiseOne(g: int -> nat, h: int -> nat, n: int, j: int)
    requires forall k :: 0 <= k < n ==> h(k) == g(k) + One(k == j)
    ensures Total(h, Range(n)) == Total(g, Range(n)) + One(0 <= j < n)
    decreases n
  {
    if n > 0 {
      RaiseOne(g, h, n - 1, j);
      TotalSnoc(g, Range(n - 1), n - 1);
      TotalSnoc(h, Range(n - 1), n - 1);
    }
  }

  lemma {:induction false} AllZero(g: int -> nat, n: int)
    requires forall k :: 0 <= k < n ==> g(k) == 0
    ensures Total(g, Range(n)) == 0
    decreases n
  {
    if n > 0 {
      AllZero(g, n - 1);
      TotalSnoc(g, Range(n - 1), n - 1);
    }
  }

  lemma WorkspaceTotal(p: Payload, r: Run)
    ensures Total(Owed(p, r), SlotsOf(Workspace, p.shards)) == One(0 <= r.shard < p.shards && r == Run(AllFeatures, 17, r.shard, None, None))
  {
    var none: int -> nat := k => 0;
    var g: int -> nat := k => One(r == WorkspaceRun(k));
    forall k | 0 <= k < p.shards ensures Owed(p, r)((Workspace, k)) == g(k) {
      assert multiset([WorkspaceRun(k)]) == multiset{WorkspaceRun(k)};
    }
    SlotsTotal(Owed(p, r), Workspace, g, p.shards);
    AllZero(none, p.shards);
    if r == Run(AllFeatures, 17, r.shard, None, None) {
      RaiseOne(none, g, p.shards, r.shard);
    } else {
      AllZero(g, p.shards);
    }
  }

  /** How often each seed worker picks `r`. */
  function Picks(seeds: seq<int>, workers: int, r: Run): int -> nat
    requires workers != 0
  {
    worker => multiset(EveryNth(seeds, workers, worker))[r]
  }

  lemma MoonpoolTotal(p: Payload, r: Run)
    requires p.seedWorkers >= 1
    ensures Total(Owed(p, r), SlotsOf(Moonpool, p.seedWorkers)) == Total(Picks(p.seeds, p.seedWorkers, r), Range(p.seedWorkers))
  {
    SlotsTotal(Owed(p, r), Moonpool, Picks(p.seeds, p.seedWorkers, r), p.seedWorkers);
  }

  /** One more seed goes to exactly one of the workers. */
  lemma PickSnoc(seeds: seq<int>, seed: int, workers: int, worker: int, r: Run)
    requires workers != 0
    ensures Picks(seeds + [seed], workers, r)(worker)
         == Picks(seeds, workers, r)(worker) + One(|seeds| % workers == worker && r == SeedRun(seed))
  {
    assert (seeds + [seed])[..|seeds|] == seeds;
  }

  lemma AllPickOneMore(seeds: seq<int>, seed: int, workers: int, r: Run)
    requires workers >= 1
    ensures Total(Picks(seeds + [seed], workers, r), Range(workers))
         == Total(Picks(seeds, workers, r), Range(workers)) + One(r == SeedRun(seed))
  {
    var j := if r == SeedRun(seed) then |seeds| % workers else -1;
    var g, h := Picks(seeds, workers, r), Picks(seeds + [seed], workers, r);
    forall k | 0 <= k < workers ensures h(k) == g(k) + One(k == j) { PickSnoc(seeds, seed, workers, k, r); }
    RaiseOne(g, h, workers, j);
  }

  /** How often a run is listed among the seeds. */
  function Listed(seeds: seq<int>, r: Run): nat {
    if r == Run(NoBuggify, r.seed, 0, None, None) then multiset(seeds)[r.seed] else 0
  }

  lemma ListedSnoc(seeds: seq<int>, seed: int, r: Run)
    ensures Listed(seeds + [seed], r) == Listed(seeds, r) + One(r == SeedRun(seed))
  {
  }

  /** All workers together pick every seed as often as it is listed, also with more workers than seeds. */
  lemma {:induction false} AllPicked(seeds: seq<int>, workers: int, r: Run)
    requires workers >= 1
    ensures Total(Picks(seeds, workers, r), Range(workers)) == Listed(seeds, r)
  {
    if seeds == [] {
      AllZero(Picks(seeds, workers, r), workers);
    } else {
      var k := |seeds| - 1;
      AllPicked(seeds[..k], workers, r);
      AllPickOneMore(seeds[..k], seeds[k], workers, r);
      ListedSnoc(seeds[..k], seeds[k], r);
      assert seeds == seeds[..k] + [seeds[k]];
    }
  }

  predicate IsScenarioRun(r: Run) {
    && r.runtime.Some? && !r.runtime.value.OtherRuntime?
    && r.scenario.Some? && !r.scenario.value.OtherScenario?
    && r == Run(AllFeatures, 17, 0, r.runtime, r.scenario)
  }

  lemma PairCounts(a: Run, b: Run, r: Run)
    ensures multiset([a] + [b])[r] == One(r == a) + One(r == b)
  {
  }

  lemma FourCounts(a: Run, b: Run, c: Run, d: Run, r: Run)
    ensures multiset([a] + [b] + ([c] + [d]))[r] == One(r == a) + One(r == b) + One(r == c) + One(r == d)
  {
    PairCounts(a, b, r);
    PairCounts(c, d, r);
    ConcatCount([a] + [b], [c] + [d], r);
  }

  lemma RuntimeCounts(runtime: Runtime, r: Run)
    requires !runtime.OtherRuntime?
    ensures multiset(RuntimeRuns(runtime))[r] == One(IsScenarioRun(r) && r.runtime == Some(runtime))
  {
    FourCounts(ScenarioRun(runtime, Producer), ScenarioRun(runtime, Consumer),
               ScenarioRun(runtime, Roundtrip), ScenarioRun(runtime, Idle), r);
    if r.scenario.Some? {
      match r.scenario.value
      case Producer =>
      case Consumer =>
      case Roundtrip =>
      case Idle =>
      case OtherScenario(_) =>
    }
  }

  lemma ScenarioCounts(r: Run)
    ensures multiset(ScenarioRuns())[r] == One(IsScenarioRun(r))
  {
    RuntimeCounts(Tokio, r);
    RuntimeCounts(MoonpoolRuntime, r);
    ConcatCount(RuntimeRuns(Tokio), RuntimeRuns(MoonpoolRuntime), r);
    if r.runtime.Some? {
      match r.runtime.value
      case Tokio =>
      case MoonpoolRuntime =>
      case OtherRuntime(_) =>
    }
  }

  lemma ConcatCount(a: seq<Run>, b: seq<Run>, r: Run)
    ensures multiset(a + b)[r] == multiset(a)[r] + multiset(b)[r]
  {
  }

  /** The runs a campaign consists of. */
  predicate IsRun(p: Payload, r: Run) {
    || (0 <= r.shard < p.shards && r == Run(AllFeatures, 17, r.shard, None, None))
    || (r.seed in p.seeds && r == Run(NoBuggify, r.seed, 0, None, None))
    || IsScenarioRun(r)
  }

  lemma ScenarioTotal(p: Payload, r: Run)
    ensures Total(Owed(p, r), [(Scenarios, 0)]) == One(IsScenarioRun(r))
  {
    var slot: Slot := (Scenarios, 0);
    TotalSnoc(Owed(p, r), [], slot);
    assert [] + [slot] == [slot];
    assert Owed(p, r)(slot) == multiset(ScenarioRuns())[r];
    ScenarioCounts(r);
  }

  /** How often a campaign asks for a run; without a seed worker it asks for no seed. */
  function Asked(p: Payload, r: Run): nat {
    One(0 <= r.shard < p.shards && r == Run(AllFeatures, 17, r.shard, None, None))
    + (if p.seedWorkers >= 1 then Listed(p.seeds, r) else 0)
    + One(IsScenarioRun(r))
  }

  lemma SeedTotal(p: Payload, r: Run)
    ensures Total(Owed(p, r), SlotsOf(Moonpool, p.seedWorkers)) == if p.seedWorkers >= 1 then Listed(p.seeds, r) else 0
  {
    if p.seedWorkers >= 1 {
      MoonpoolTotal(p, r);
      AllPicked(p.seeds, p.seedWorkers, r);
    }
  }

  lemma SplitTotal(f: Slot -> nat, a: seq<Slot>, b: seq<Slot>, c: seq<Slot>)
    ensures Total(f, a + b + c) == Total(f, a) + Total(f, b) + Total(f, c)
  {
    TotalConcat(f, a + b, c);
    TotalConcat(f, a, b);
  }

  lemma ExpectedTotal(p: Payload, r: Run)
    ensures Total(Owed(p, r), ExpectedSlots(p)) == Asked(p, r)
  {
    SplitTotal(Owed(p, r), SlotsOf(Workspace, p.shards), SlotsOf(Moonpool, p.seedWorkers), [(Scenarios, 0)]);
    WorkspaceTotal(p, r);
    SeedTotal(p, r);
    ScenarioTotal(p, r);
  }

  /** If the check passes, every run was reported exactly as often as the campaign asks for it, any other never. */
  lemma ReportedAsAsked(p: Payload, ws: seq<Worker>, r: Run)
    requires CheckCiWorkers(p, ws)
    ensures Reported(ws, r) == Asked(p, r)
  {
    ReportedIsOwed(p, ws, r);
    TotalPermutes(Owed(p, r), ExpectedSlots(p), ReportedSlots(ws));
    ExpectedTotal(p, r);
  }

  /** Every seed as often as it is listed, for any list of seeds. */
  lemma SeedsAsListed(p: Payload, ws: seq<Worker>, seed: int)
    requires CheckCiWorkers(p, ws)
    ensures Reported(ws, Run(NoBuggify, seed, 0, None, None)) == if p.seedWorkers >= 1 then multiset(p.seeds)[seed] else 0
  {
    ReportedAsAsked(p, ws, Run(NoBuggify, seed, 0, None, None));
  }

  /**
   If the check passes and there is at least one seed worker, every workspace shard, every seed
   and every runtime and scenario was reported exactly once, and nothing else was reported.
   With no seed worker the check can still pass although not one seed was run.
   */
  lemma ReportedExactlyOnce(p: Payload, ws: seq<Worker>, r: Run)
    requires CheckCiWorkers(p, ws) && NoDuplicates(p.seeds)
    ensures p.seedWorkers >= 1 ==> Reported(ws, r) == One(IsRun(p, r))
    ensures p.seedWorkers < 1 && r == Run(NoBuggify, r.seed, 0, None, None) ==> Reported(ws, r) == 0
  {
    ReportedAsAsked(p, ws, r);
  }

  // ----- What passes -----

  lemma {:induction false} SlotsOfHave(kind: WorkerKind, n: int, slot: Slot)
    ensures multiset(SlotsOf(kind, n))[slot] == One(slot.0 == kind && 0 <= slot.1 < n)
    decreases n
  {
    if n > 0 { SlotsOfHave(kind, n - 1, slot); }
  }

  lemma SlotCount(p: Payload, slot: Slot)
    ensures multiset(ExpectedSlots(p))[slot]
         == One(slot.0 == Workspace && 0 <= slot.1 < p.shards) + One(slot.0 == Moonpool && 0 <= slot.1 < p.seedWorkers)
            + One(slot == (Scenarios, 0))
  {
    SlotsOfHave(Workspace, p.shards, slot);
    SlotsOfHave(Moonpool, p.seedWorkers, slot);
  }

  /** Exactly the expected workers owe something: every other kind or index is refused. */
  lemma ExpectedWorkers(p: Payload, slot: Slot)
    ensures ExpectedRuns(p, slot).Some? <==> slot in ExpectedSlots(p)
    ensures NoDuplicates(ExpectedSlots(p))
  {
    SlotCount(p, slot);
    assert slot in ExpectedSlots(p) <==> slot in multiset(ExpectedSlots(p));
    forall other | other in ExpectedSlots(p) ensures multiset(ExpectedSlots(p))[other] == 1 { SlotCount(p, other); }
  }

  /** A seed worker owes a seed at most as often as it is listed. */
  lemma {:induction false} PickedAtMost(seeds: seq<int>, workers: int, worker: int, r: Run)
    requires workers != 0
    ensures multiset(EveryNth(seeds, workers, worker))[r] <= Listed(seeds, r)
  {
    if seeds != [] {
      var k := |seeds| - 1;
      PickedAtMost(seeds[..k], workers, worker, r);
      ListedSnoc(seeds[..k], seeds[k], r);
      assert seeds == seeds[..k] + [seeds[k]];
    }
  }

  /** With distinct seeds no worker owes a run twice. */
  lemma OwedOnce(p: Payload, slot: Slot)
    requires NoDuplicates(p.seeds) && ExpectedRuns(p, slot).Some?
    ensures NoDuplicates(ExpectedRuns(p, slot).value)
  {
    var runs := ExpectedRuns(p, slot).value;
    forall r | r in runs ensures multiset(runs)[r] == 1 {
      match slot.0
      case Workspace =>
      case Moonpool => PickedAtMost(p.seeds, p.seedWorkers, slot.1, r);
      case Scenarios => ScenarioCounts(r);
      case OtherKind(_) =>
    }
  }

  /**
   For distinct seeds the check passes exactly when the workers are the expected ones, each once, all on the
   revisions of the campaign, and each reports the runs it owes in whatever order.
   */
  lemma WhatPasses(p: Payload, ws: seq<Worker>)
    requires NoDuplicates(p.seeds)
    ensures CheckCiWorkers(p, ws) <==>
      && multiset(ReportedSlots(ws)) == multiset(ExpectedSlots(p))
      && forall w :: w in ws ==>
           && w.revisions == p.revisions
           && ExpectedRuns(p, (w.kind, w.index)).Some?
           && multiset(w.runs) == multiset(ExpectedRuns(p, (w.kind, w.index)).value)
  {
    ExpectedWorkers(p, (Scenarios, 0));
    forall w | w in ws && ExpectedRuns(p, (w.kind, w.index)).Some?
      ensures NoDuplicates(ExpectedRuns(p, (w.kind, w.index)).value)
    {
      OwedOnce(p, (w.kind, w.index));
    }
  }

  lemma ScenariosReconcile()
    ensures Reconciles(ScenarioRuns(), ScenarioRuns())
  {
    forall r | r in ScenarioRuns() ensures multiset(ScenarioRuns())[r] == 1 { ScenarioCounts(r); }
  }

  /** A campaign with no seed worker that passes the check. */
  lemma NoSeedWorkerPasses(p: Payload, w: Worker)
    requires p.shards == p.seedWorkers == 0
    requires w == Worker(Scenarios, 0, p.revisions, ScenarioRuns())
    ensures CheckCiWorkers(p, [w])
  {
    var slot: Slot := (Scenarios, 0);
    assert ExpectedSlots(p) == [slot] && ReportedSlots([w]) == [slot];
    ScenariosReconcile();
  }
}
