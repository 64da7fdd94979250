/**
 The client-wide publish memory budget (`MemoryLimitController`) as a machine of atomic steps:
 loads and compare-and-swaps of the counter, the critical sections of the waiter lock, the
 decrement of a release, the taking of the parked set that follows it, and then each call of a
 waker on its own. Steps of any number of tasks interleave in every possible way.
 */
module MemoryLimit {
  import opened Wrappers
  import opened Totals

  type Task = nat

  /** A parked caller: who its waker wakes, and the bytes it asked for. */
  datatype Waiter = Waiter(task: Task, bytes: nat)

  /**
   Where a task stands inside an operation. `polling` operations hold the waiter lock.
   - `Trying`: about to load the counter;
   - `Loaded`: holds the value it loaded;
   - `Refused`: a poll that did not fit and is about to park;
   - `Granted`: a poll that fits and is about to drop its registration;
   - `Draining`: a release that has decremented the counter and is about to take the parked set;
   - `Waking`: a release that has taken the parked set and still has these to wake, outside the lock.
   */
  datatype Position =
    | Trying(bytes: nat, polling: bool)
    | Loaded(bytes: nat, polling: bool, current: nat)
    | Refused(bytes: nat)
    | Granted
    | Draining
    | Waking(left: seq<Task>)

  /**
   `held` lists the live reservations, `slots` the registration each pending caller remembers,
   and `woken` those whose waker has been called since they last polled.
   */
  datatype State = State(
    limit: nat, used: nat, held: seq<nat>,
    parked: map<nat, Waiter>, nextId: nat, lockedBy: Option<Task>,
    slots: map<Task, nat>, woken: set<Task>, at: map<Task, Position>)

  datatype Action =
    | TryReserve(task: Task, bytes: nat)
    | PollReserve(task: Task, bytes: nat)
    | Load(task: Task)
    | CompareExchange(task: Task)
    | Park(task: Task)
    | Unregister(task: Task)
    | Cancel(task: Task)
    | Release(task: Task, index: nat)
    | Drain(task: Task)
    | Wake(task: Task)

  function Start(limit: nat): State {
    State(limit, 0, [], map[], 0, None, map[], {}, map[])
  }

  predicate Idle(s: State, t: Task) {
    t !in s.at
  }

  predicate Fits(s: State, current: nat, bytes: nat) {
    current + bytes <= s.limit
  }

  /** The registrations below `n`, oldest first. */
  function Ids(parked: map<nat, Waiter>, n: nat): (r: seq<nat>)
    ensures forall k :: 0 <= k < |r| ==> r[k] in parked && r[k] < n
  {
    if n == 0 then [] else Ids(parked, n - 1) + if n - 1 in parked then [n - 1] else []
  }

  lemma {:induction false} IdsAreAll(parked: map<nat, Waiter>, n: nat, id: nat)
    requires id in parked && id < n
    ensures id in Ids(parked, n)
  {
    if id < n - 1 { IdsAreAll(parked, n - 1, id); }
  }

  lemma {:induction false} IdsAscend(parked: map<nat, Waiter>, n: nat, i: nat, j: nat)
    requires i < j < |Ids(parked, n)|
    ensures Ids(parked, n)[i] < Ids(parked, n)[j]
  {
    if j < |Ids(parked, n - 1)| { IdsAscend(parked, n - 1, i, j); }
  }

  /** Who is registered, in the order of registration: the order of a `BTreeMap`. */
  function Callers(parked: map<nat, Waiter>, n: nat): (r: seq<Task>)
    ensures |r| == |Ids(parked, n)|
    ensures forall k :: 0 <= k < |r| ==> r[k] == parked[Ids(parked, n)[k]].task
  {
    var ids := Ids(parked, n);
    seq(|ids|, k requires 0 <= k < |ids| => parked[ids[k]].task)
  }

  function Remove(s: seq<nat>, i: nat): seq<nat>
    requires i < |s|
  {
    s[..i] + s[i + 1..]
  }

  /** One atomic step; an action that is not enabled changes nothing. A limit of 0 disables accounting. */
  function Step(s: State, a: Action): State {
    match a
    case TryReserve(t, bytes) =>
      if !Idle(s, t) || s.limit == 0 then s else s.(at := s.at[t := Trying(bytes, false)])
    case PollReserve(t, bytes) =>
      if !Idle(s, t) || s.limit == 0 || s.lockedBy.Some? then s
      else s.(lockedBy := Some(t), woken := s.woken - {t}, at := s.at[t := Trying(bytes, true)])
    case Load(t) =>
      if t in s.at && s.at[t].Trying? then s.(at := s.at[t := Loaded(s.at[t].bytes, s.at[t].polling, s.used)]) else s
    case CompareExchange(t) =>
      if t !in s.at || !s.at[t].Loaded? then s
      else
        var p := s.at[t];
        if !Fits(s, p.current, p.bytes) then
          s.(at := if p.polling then s.at[t := Refused(p.bytes)] else s.at - {t})
        else if s.used != p.current then s.(at := s.at[t := Trying(p.bytes, p.polling)])
        else s.(used := p.current + p.bytes, held := s.held + [p.bytes],
                at := if p.polling then s.at[t := Granted] else s.at - {t})
    case Park(t) =>
      if t !in s.at || !s.at[t].Refused? then s
      else
        var w := Waiter(t, s.at[t].bytes);
        if t in s.slots && s.slots[t] in s.parked then
          s.(parked := s.parked[s.slots[t] := w], lockedBy := None, at := s.at - {t})
        else
          s.(parked := s.parked[s.nextId := w], slots := s.slots[t := s.nextId], nextId := s.nextId + 1,
             lockedBy := None, at := s.at - {t})
    case Unregister(t) =>
      if t !in s.at || !s.at[t].Granted? then s
      else
        var ids := if t in s.slots then {s.slots[t]} else {};
        s.(parked := s.parked - ids, slots := s.slots - {t}, lockedBy := None, at := s.at - {t})
    case Cancel(t) =>
      if !Idle(s, t) || s.lockedBy.Some? || t !in s.slots then s
      else s.(parked := s.parked - {s.slots[t]}, slots := s.slots - {t})
    case Release(t, index) =>
      if !Idle(s, t) || index >= |s.held| || s.used < s.held[index] then s
      else s.(used := s.used - s.held[index], held := Remove(s.held, index), at := s.at[t := Draining])
    case Drain(t) =>
      if t !in s.at || !s.at[t].Draining? || s.lockedBy.Some? then s
      else
        var left := Callers(s.parked, s.nextId);
        s.(parked := map[], at := if left == [] then s.at - {t} else s.at[t := Waking(left)])
    case Wake(t) =>
      if t !in s.at || !s.at[t].Waking? || s.at[t].left == [] then s
      else
        var left := s.at[t].left;
        s.(woken := s.woken + {left[0]}, at := if |left| == 1 then s.at - {t} else s.at[t := Waking(left[1..])])
  }

  function Run(s: State, actions: seq<Action>): State
    decreases |actions|
  {
    if actions == [] then s else Run(Step(s, actions[0]), actions[1..])
  }

  // ----- The invariant -----

  const SIZE: nat -> nat := x => x

  predicate Drains(s: State) {
    exists t :: t in s.at && s.at[t].Draining?
  }

  /** Bytes that do not fit now, unless a release is about to wake everybody. */
  predicate Hopeless(s: State, bytes: nat) {
    Drains(s) || !Fits(s, s.used, bytes)
  }

  predicate InsideLock(p: Position) {
    match p
    case Trying(_, polling) => polling
    case Loaded(_, polling, _) => polling
    case Refused(_) => true
    case Granted => true
    case Draining => false
    case Waking(_) => false
  }

  /** The counter is the sum of the live reservations and within the limit. */
  predicate Counted(s: State) {
    s.used == Total(SIZE, s.held) && s.used <= s.limit
  }

  /** The lock is held by exactly the one who is inside a critical section. */
  predicate Locked(s: State) {
    && (forall t :: t in s.at && InsideLock(s.at[t]) ==> s.lockedBy == Some(t))
    && (s.lockedBy.Some? ==> s.lockedBy.value in s.at && InsideLock(s.at[s.lockedBy.value]))
  }

  /** Registrations are fresh, belong to the slot of their task, and nobody else's. */
  predicate Registered(s: State) {
    && (forall id :: id in s.parked ==> id < s.nextId)
    && (forall id :: id in s.parked ==> s.parked[id].task in s.slots && s.slots[s.parked[id].task] == id)
    && (forall t :: t in s.slots ==> s.slots[t] < s.nextId)
    && (forall t, u :: t in s.slots && u in s.slots && s.slots[t] == s.slots[u] ==> t == u)
  }

  /** A release that has taken the registration of `t` still has to wake it. */
  predicate ToBeWoken(s: State, t: Task) {
    exists u :: u in s.at && s.at[u].Waking? && t in s.at[u].left
  }

  predicate RememberedAt(s: State, t: Task) {
    t in s.slots && !(t in s.at && InsideLock(s.at[t])) ==>
      s.slots[t] in s.parked || t in s.woken || ToBeWoken(s, t)
  }

  /** A pending caller is registered, woken, about to be woken by a release, or polling at this moment. */
  ghost predicate Remembered(s: State) {
    forall t :: RememberedAt(s, t)
  }

  /** No release has been missed by a parked caller, nor by one that is about to park. */
  predicate NoneMissed(s: State) {
    && (forall id :: id in s.parked ==> Hopeless(s, s.parked[id].bytes))
    && (forall t :: t in s.at && s.at[t].Refused? ==> Hopeless(s, s.at[t].bytes))
    && (forall t :: t in s.at && s.at[t].Loaded? && s.at[t].polling && !Fits(s, s.at[t].current, s.at[t].bytes)
          ==> Hopeless(s, s.at[t].bytes))
  }

  ghost predicate Invariant(s: State) {
    Counted(s) && Locked(s) && Registered(s) && Remembered(s) && NoneMissed(s)
  }

  // ----- Every step keeps it -----

  lemma CountedByCompareExchange(s: State, t: Task)
    requires Counted(s)
    ensures Counted(Step(s, CompareExchange(t)))
  {
    if t in s.at && s.at[t].Loaded? { TotalSnoc(SIZE, s.held, s.at[t].bytes); }
  }

  lemma CountedByRelease(s: State, t: Task, index: nat)
    requires Counted(s)
    ensures Counted(Step(s, Release(t, index)))
  {
    if index < |s.held| { TotalWithout(SIZE, s.held, index, s.held[index]); }
  }

  lemma CountedByOthers(s: State, a: Action)
    requires Counted(s) && !a.CompareExchange? && !a.Release?
    ensures Counted(Step(s, a))
  {
    var s' := Step(s, a);
    assert s'.used == s.used && s'.held == s.held && s'.limit == s.limit;
  }

  lemma CountedKept(s: State, a: Action)
    requires Counted(s)
    ensures Counted(Step(s, a))
  {
    match a
    case CompareExchange(t) => CountedByCompareExchange(s, t);
    case Release(t, index) => CountedByRelease(s, t, index);
    case _ => CountedByOthers(s, a);
  }

  /** The guard of a release never stops it: the counter holds at least the bytes given back. */
  lemma ReleaseNeverWraps(s: State, index: nat)
    requires Counted(s) && index < |s.held|
    ensures s.held[index] <= s.used
  {
    TotalWithout(SIZE, s.held, index, s.held[index]);
  }

  predicate Unlocks(a: Action) {
    a.Park? || a.Unregister?
  }

  lemma LockedByUnlocking(s: State, a: Action)
    requires Locked(s) && Unlocks(a)
    ensures Locked(Step(s, a))
  {
  }

  lemma LockedByRelease(s: State, a: Action)
    requires Locked(s) && (a.Release? || a.Drain? || a.Wake? || a.Cancel?)
    ensures Locked(Step(s, a))
  {
  }

  lemma LockedByReserving(s: State, a: Action)
    requires Locked(s) && (a.TryReserve? || a.PollReserve? || a.Load? || a.CompareExchange?)
    ensures Locked(Step(s, a))
  {
  }

  lemma LockedKept(s: State, a: Action)
    requires Locked(s)
    ensures Locked(Step(s, a))
  {
    if Unlocks(a) {
      LockedByUnlocking(s, a);
    } else if a.Release? || a.Drain? || a.Wake? || a.Cancel? {
      LockedByRelease(s, a);
    } else {
      LockedByReserving(s, a);
    }
  }

  lemma RegisteredByPark(s: State, t: Task)
    requires Registered(s)
    ensures Registered(Step(s, Park(t)))
  {
  }

  lemma RegisteredByRemoval(s: State, t: Task)
    requires Registered(s)
    ensures Registered(Step(s, Unregister(t))) && Registered(Step(s, Cancel(t)))
  {
  }

  lemma RegisteredByOthers(s: State, a: Action)
    requires Registered(s) && !a.Park? && !a.Unregister? && !a.Cancel?
    ensures Registered(Step(s, a))
  {
  }

  lemma RegisteredKept(s: State, a: Action)
    requires Registered(s)
    ensures Registered(Step(s, a))
  {
    match a
    case Park(t) => RegisteredByPark(s, t);
    case Unregister(t) => RegisteredByRemoval(s, t);
    case Cancel(t) => RegisteredByRemoval(s, t);
    case _ => RegisteredByOthers(s, a);
  }

  /** A registration names the owner of its slot. */
  lemma SlotOwner(s: State, t: Task)
    requires Registered(s) && t in s.slots && s.slots[t] in s.parked
    ensures s.parked[s.slots[t]].task == t
  {
  }

  /** A step of somebody else, or one that wakes somebody else, leaves the wake that is owed. */
  lemma OwnWake(s: State, u: Task, t: Task)
    requires u in s.at && s.at[u].Waking? && t in s.at[u].left
    ensures ToBeWoken(Step(s, Wake(u)), t) || t in Step(s, Wake(u)).woken
  {
    var s', left := Step(s, Wake(u)), s.at[u].left;
    if t != left[0] { assert t in left[1..] && u in s'.at && s'.at[u].left == left[1..]; }
  }

  /** A release that wakes is moved by nothing but its own next wake. */
  lemma WakingStays(s: State, a: Action, u: Task)
    requires u in s.at && s.at[u].Waking? && a != Wake(u)
    ensures u in Step(s, a).at && Step(s, a).at[u] == s.at[u]
  {
  }

  /** A step of somebody else, or one that wakes somebody else, leaves the wake that is owed. */
  lemma WakeStaysOwed(s: State, a: Action, t: Task)
    requires ToBeWoken(s, t)
    ensures ToBeWoken(Step(s, a), t) || (a.Wake? && t in Step(s, a).woken)
  {
    var u :| u in s.at && s.at[u].Waking? && t in s.at[u].left;
    if a == Wake(u) { OwnWake(s, u, t); } else { WakingStays(s, a, u); }
  }

  lemma RememberedByPark(s: State, u: Task, t: Task)
    requires Locked(s) && Registered(s) && Remembered(s)
    ensures RememberedAt(Step(s, Park(u)), t)
  {
    assert RememberedAt(s, t);
    if ToBeWoken(s, t) { WakeStaysOwed(s, Park(u), t); }
  }

  lemma RememberedByUnregister(s: State, u: Task, t: Task)
    requires Locked(s) && Registered(s) && Remembered(s)
    ensures RememberedAt(Step(s, Unregister(u)), t)
  {
    assert RememberedAt(s, t);
    assert t in s.slots && u in s.slots && t != u ==> s.slots[t] != s.slots[u];
    if ToBeWoken(s, t) { WakeStaysOwed(s, Unregister(u), t); }
  }

  lemma RememberedByCancel(s: State, u: Task, t: Task)
    requires Registered(s) && Remembered(s)
    ensures RememberedAt(Step(s, Cancel(u)), t)
  {
    assert RememberedAt(s, t);
    assert t in s.slots && u in s.slots && t != u ==> s.slots[t] != s.slots[u];
    if ToBeWoken(s, t) { WakeStaysOwed(s, Cancel(u), t); }
  }

  lemma ParkedIsListed(s: State, t: Task)
    requires Registered(s) && t in s.slots && s.slots[t] in s.parked
    ensures t in Callers(s.parked, s.nextId)
  {
    SlotOwner(s, t);
    ListedCaller(s.parked, s.nextId, s.slots[t]);
  }

  lemma ListedCaller(parked: map<nat, Waiter>, n: nat, id: nat)
    requires id in parked && id < n
    ensures parked[id].task in Callers(parked, n)
  {
    var ids := Ids(parked, n);
    IdsAreAll(parked, n, id);
    var k :| 0 <= k < |ids| && ids[k] == id;
    assert Callers(parked, n)[k] == parked[id].task;
  }

  predicate MayDrain(s: State, u: Task) {
    u in s.at && s.at[u].Draining? && s.lockedBy.None?
  }

  /** A registration that a release takes is one that it wakes. */
  lemma DrainOwesWakes(s: State, u: Task, t: Task)
    requires MayDrain(s, u) && t in Callers(s.parked, s.nextId)
    ensures ToBeWoken(Step(s, Drain(u)), t)
  {
    var s' := Step(s, Drain(u));
    assert u in s'.at && s'.at[u] == Waking(Callers(s.parked, s.nextId));
  }

  lemma RememberedByDrain(s: State, u: Task, t: Task)
    requires Registered(s) && Remembered(s)
    ensures RememberedAt(Step(s, Drain(u)), t)
  {
    assert RememberedAt(s, t);
    if MayDrain(s, u) && t in s.slots {
      if ToBeWoken(s, t) {
        WakeStaysOwed(s, Drain(u), t);
      } else if s.slots[t] in s.parked {
        ParkedIsListed(s, t);
        DrainOwesWakes(s, u, t);
      }
    }
  }

  lemma RememberedByOthers(s: State, a: Action, t: Task)
    requires !a.Park? && !a.Unregister? && !a.Cancel? && !a.Drain?
    requires Remembered(s)
    ensures RememberedAt(Step(s, a), t)
  {
    assert RememberedAt(s, t);
    if ToBeWoken(s, t) { WakeStaysOwed(s, a, t); }
  }

  lemma RememberedKept(s: State, a: Action)
    requires Locked(s) && Registered(s) && Remembered(s)
    ensures Remembered(Step(s, a))
  {
    forall t ensures RememberedAt(Step(s, a), t) {
      match a
      case Park(u) => RememberedByPark(s, u, t);
      case Unregister(u) => RememberedByUnregister(s, u, t);
      case Cancel(u) => RememberedByCancel(s, u, t);
      case Drain(u) => RememberedByDrain(s, u, t);
      case _ => RememberedByOthers(s, a, t);
    }
  }

  lemma HopelessKept(s: State, a: Action, bytes: nat)
    requires Hopeless(s, bytes) && !a.Drain?
    ensures Hopeless(Step(s, a), bytes)
  {
    var s' := Step(s, a);
    if Drains(s) {
      var t :| t in s.at && s.at[t].Draining?;
      assert t in s'.at && s'.at[t].Draining?;
    } else if a.Release? && s' != s {
      assert a.task in s'.at && s'.at[a.task].Draining?;
    }
  }

  lemma NoneMissedByDrain(s: State, t: Task)
    requires Locked(s) && NoneMissed(s)
    ensures NoneMissed(Step(s, Drain(t)))
  {
  }

  lemma NoneMissedByOthers(s: State, a: Action)
    requires NoneMissed(s) && !a.Drain?
    ensures NoneMissed(Step(s, a))
  {
    forall bytes: nat | Hopeless(s, bytes) ensures Hopeless(Step(s, a), bytes) { HopelessKept(s, a, bytes); }
  }

  lemma NoneMissedKept(s: State, a: Action)
    requires Locked(s) && NoneMissed(s)
    ensures NoneMissed(Step(s, a))
  {
    match a
    case Drain(t) => NoneMissedByDrain(s, t);
    case _ => NoneMissedByOthers(s, a);
  }

  lemma LimitKept(s: State, a: Action)
    ensures Step(s, a).limit == s.limit
  {
  }

  lemma InvariantFrom(s: State)
    requires Counted(s) && Locked(s) && Registered(s) && Remembered(s) && NoneMissed(s)
    ensures Invariant(s)
  {
  }

  lemma StepKeepsInvariant(s: State, a: Action)
    requires Invariant(s)
    ensures Invariant(Step(s, a))
  {
    CountedKept(s, a);
    LockedKept(s, a);
    RegisteredKept(s, a);
    RememberedKept(s, a);
    NoneMissedKept(s, a);
    InvariantFrom(Step(s, a));
  }

  lemma {:induction false} RunKeepsInvariant(s: State, actions: seq<Action>)
    requires Invariant(s)
    ensures Invariant(Run(s, actions)) && Run(s, actions).limit == s.limit
    decreases |actions|
  {
    if actions != [] {
      StepKeepsInvariant(s, actions[0]);
      LimitKept(s, actions[0]);
      RunKeepsInvariant(Step(s, actions[0]), actions[1..]);
    }
  }

  // ----- What it means -----

  /** Over every interleaving the counter is exactly the bytes held, and never above the limit. */
  lemma BudgetIsConserved(limit: nat, actions: seq<Action>)
    ensures var s := Run(Start(limit), actions); s.used == Total(SIZE, s.held) && s.used <= limit
  {
    RunKeepsInvariant(Start(limit), actions);
  }

  /**
   No release is missed, in any reachable state. Unless a release is between its decrement and its
   taking of the parked set, every parked caller asks for more than what is free. Every pending
   caller that is not polling is parked, has been woken, or is on the list of a release that is
   still calling its wakers.
   */
  lemma NoReleaseIsMissed(limit: nat, actions: seq<Action>)
    ensures var s := Run(Start(limit), actions);
            && (!Drains(s) ==> forall id :: id in s.parked ==> s.used + s.parked[id].bytes > limit)
            && (forall t :: t in s.slots && Idle(s, t) ==> s.slots[t] in s.parked || t in s.woken || ToBeWoken(s, t))
  {
    RunKeepsInvariant(Start(limit), actions);
    var s := Run(Start(limit), actions);
    forall t | t in s.slots && Idle(s, t) ensures s.slots[t] in s.parked || t in s.woken || ToBeWoken(s, t) {
      assert RememberedAt(s, t);
    }
  }

  predicate Wakes(s: State) {
    exists u :: u in s.at && s.at[u].Waking?
  }

  /** While no release is calling wakers, every pending caller that is not polling is parked or has been woken. */
  lemma ParkedOrWoken(limit: nat, actions: seq<Action>, t: Task)
    ensures var s := Run(Start(limit), actions);
            !Wakes(s) && t in s.slots && Idle(s, t) ==> s.slots[t] in s.parked || t in s.woken
  {
    NoReleaseIsMissed(limit, actions);
  }

  lemma RunStep(s: State, a: Action, rest: seq<Action>)
    ensures Run(s, [a] + rest) == Run(Step(s, a), rest)
  {
    assert ([a] + rest)[1..] == rest;
  }

  lemma RunTwo(s: State, a: Action, b: Action, rest: seq<Action>)
    ensures Run(s, [a, b] + rest) == Run(Step(Step(s, a), b), rest)
  {
    assert [a, b] + rest == [a] + ([b] + rest);
    RunStep(s, a, [b] + rest);
    RunStep(Step(s, a), b, rest);
  }

  function Repeat(a: Action, n: nat): seq<Action> {
    if n == 0 then [] else [a] + Repeat(a, n - 1)
  }

  lemma {:induction false} ListIsWoken(s: State, u: Task, left: seq<Task>)
    requires u in s.at && s.at[u] == Waking(left) && left != []
    ensures var end := Run(s, Repeat(Wake(u), |left|));
            u !in end.at && end.parked == s.parked && forall t :: t in end.woken <==> t in s.woken || t in left
    decreases |left|
  {
    var next := Step(s, Wake(u));
    RunStep(s, Wake(u), Repeat(Wake(u), |left| - 1));
    assert left == [left[0]] + left[1..];
    if |left| > 1 { ListIsWoken(next, u, left[1..]); }
  }

  /** Of two parked callers the one that registered first is first on the list. */
  lemma OlderFirst(s: State, t: Task, t': Task) returns (k: nat, k': nat)
    requires Registered(s) && t in s.slots && t' in s.slots && s.slots[t] in s.parked && s.slots[t'] in s.parked
    requires s.slots[t] < s.slots[t']
    ensures var left := Callers(s.parked, s.nextId);
            k < k' < |left| && left[k] == t && left[k'] == t'
  {
    var ids := Ids(s.parked, s.nextId);
    SlotOwner(s, t);
    SlotOwner(s, t');
    IdsAreAll(s.parked, s.nextId, s.slots[t]);
    IdsAreAll(s.parked, s.nextId, s.slots[t']);
    k :| 0 <= k < |ids| && ids[k] == s.slots[t];
    k' :| 0 <= k' < |ids| && ids[k'] == s.slots[t'];
    if k' < k { IdsAscend(s.parked, s.nextId, k', k); }
  }

  lemma WakesFirst(s: State, u: Task, left: seq<Task>)
    requires u in s.at && s.at[u] == Waking(left) && |left| > 1
    ensures var next := Step(s, Wake(u));
            u in next.at && next.at[u] == Waking(left[1..]) && next.woken == s.woken + {left[0]}
  {
  }

  lemma OneMoreWoken(left: seq<Task>, k: nat)
    requires 0 < k < |left|
    ensures left[1..][k - 1..] == left[k..]
    ensures forall t :: t in left[..k] <==> t == left[0] || t in left[1..][..k - 1]
  {
    assert left[..k] == [left[0]] + left[1..][..k - 1];
  }

  /** After `k` of its wakes a release has woken exactly the first `k` on its list; the others are left. */
  lemma {:induction false} PrefixWoken(s: State, u: Task, left: seq<Task>, k: nat)
    requires u in s.at && s.at[u] == Waking(left) && k < |left|
    ensures var end := Run(s, Repeat(Wake(u), k));
            && u in end.at && end.at[u] == Waking(left[k..])
            && forall t :: t in end.woken <==> t in s.woken || t in left[..k]
    decreases k
  {
    if k > 0 {
      RunStep(s, Wake(u), Repeat(Wake(u), k - 1));
      WakesFirst(s, u, left);
      PrefixWoken(Step(s, Wake(u)), u, left[1..], k - 1);
      OneMoreWoken(left, k);
    }
  }

  /** What is left of a release once its list is woken. */
  lemma DrainedIsWoken(s: State, u: Task, left: seq<Task>)
    requires MayDrain(s, u) && left == Callers(s.parked, s.nextId)
    ensures var end := Run(Step(s, Drain(u)), Repeat(Wake(u), |left|));
            u !in end.at && end.parked == map[] && forall t :: t in left ==> t in end.woken
  {
    if left != [] { ListIsWoken(Step(s, Drain(u)), u, left); }
  }

  /**
   A release that finds the lock free empties the parked set, and its own remaining steps, one for
   each caller, wake everybody it found there and end it.
   */
  lemma ReleaseWakesEverybody(s: State, u: Task)
    requires Registered(s) && MayDrain(s, u)
    ensures var end := Run(s, [Drain(u)] + Repeat(Wake(u), |Callers(s.parked, s.nextId)|));
            u !in end.at && end.parked == map[] && forall id :: id in s.parked ==> s.parked[id].task in end.woken
  {
    var left := Callers(s.parked, s.nextId);
    RunStep(s, Drain(u), Repeat(Wake(u), |left|));
    DrainedIsWoken(s, u, left);
    forall id | id in s.parked ensures s.parked[id].task in left { ListedCaller(s.parked, s.nextId, id); }
  }

  /** A caller 2 that is parked behind a reservation of caller 1. */
  function Blocked(bytes: nat): State {
    State(bytes, bytes, [bytes], map[0 := Waiter(2, bytes)], 1, None, map[2 := 0], {}, map[])
  }

  lemma Reserving(bytes: nat)
    requires bytes > 0
    ensures Step(Step(Step(Start(bytes), TryReserve(1, bytes)), Load(1)), CompareExchange(1))
         == State(bytes, bytes, [bytes], map[], 0, None, map[], {}, map[])
  {
    var s := Step(Step(Start(bytes), TryReserve(1, bytes)), Load(1));
    assert s.at == map[1 := Loaded(bytes, false, 0)];
    assert s.at - {1} == map[];
  }

  lemma Refusing(s: State, bytes: nat)
    requires bytes > 0 && s == State(bytes, bytes, [bytes], map[], 0, None, map[], {}, map[])
    ensures Step(Step(Step(Step(s, PollReserve(2, bytes)), Load(2)), CompareExchange(2)), Park(2)) == Blocked(bytes)
  {
    var s1 := Step(s, PollReserve(2, bytes));
    var s2 := Step(s1, Load(2));
    assert s2.at == map[2 := Loaded(bytes, true, bytes)];
    var s3 := Step(s2, CompareExchange(2));
    assert s3.at == map[2 := Refused(bytes)];
    assert s3.at - {2} == map[];
  }

  lemma BlockedIsReached(bytes: nat)
    requires bytes > 0
    ensures Run(Start(bytes), [TryReserve(1, bytes), Load(1)] + ([CompareExchange(1), PollReserve(2, bytes)]
                              + ([Load(2), CompareExchange(2)] + ([Park(2)] + [])))) == Blocked(bytes)
  {
    var s0 := Start(bytes);
    var s2 := Step(Step(s0, TryReserve(1, bytes)), Load(1));
    var s4 := Step(Step(s2, CompareExchange(1)), PollReserve(2, bytes));
    var s6 := Step(Step(s4, Load(2)), CompareExchange(2));
    RunStep(s6, Park(2), []);
    RunTwo(s4, Load(2), CompareExchange(2), [Park(2)] + []);
    RunTwo(s2, CompareExchange(1), PollReserve(2, bytes), [Load(2), CompareExchange(2)] + ([Park(2)] + []));
    RunTwo(s0, TryReserve(1, bytes), Load(1),
           [CompareExchange(1), PollReserve(2, bytes)] + ([Load(2), CompareExchange(2)] + ([Park(2)] + [])));
    Reserving(bytes);
    Refusing(Step(s2, CompareExchange(1)), bytes);
  }

  lemma BlockedReleases(bytes: nat)
    requires bytes > 0
    ensures Step(Blocked(bytes), Release(1, 0))
         == State(bytes, 0, [], map[0 := Waiter(2, bytes)], 1, None, map[2 := 0], {}, map[1 := Draining])
  {
  }

  /** Taking the parked set changes neither the slots nor who has been woken. */
  lemma DrainTakes(s: State, u: Task)
    requires MayDrain(s, u)
    ensures var s' := Step(s, Drain(u));
            s'.parked == map[] && s'.slots == s.slots && s'.woken == s.woken && forall t :: t != u ==> (Idle(s', t) <==> Idle(s, t))
  {
  }

  /**
   The window between taking a registration and calling its waker is real: here the caller 2 is
   pending and idle, its registration is gone, and its waker has not been called yet.
   */
  lemma TakenButNotYetWoken(bytes: nat)
    requires bytes > 0
    ensures var s := Run(Blocked(bytes), [Release(1, 0)] + ([Drain(1)] + []));
            2 in s.slots && Idle(s, 2) && s.slots[2] !in s.parked && 2 !in s.woken && ToBeWoken(s, 2)
  {
    var s := Step(Blocked(bytes), Release(1, 0));
    RunStep(Blocked(bytes), Release(1, 0), [Drain(1)] + []);
    RunStep(s, Drain(1), []);
    BlockedReleases(bytes);
    DrainTakes(s, 1);
    ListedCaller(s.parked, s.nextId, 0);
    DrainOwesWakes(s, 1, 2);
  }

  // ----- Operations that nothing interrupts -----

  lemma BackToIdle(at: map<Task, Position>, t: Task, p: Position)
    requires t !in at
    ensures at[t := p] - {t} == at
  {
  }

  lemma MoveOn(at: map<Task, Position>, t: Task, p: Position, q: Position)
    ensures at[t := p][t := q] == at[t := q]
  {
  }

  lemma RunThree(s: State, a: Action, b: Action, c: Action, rest: seq<Action>)
    ensures Run(s, [a] + ([b] + ([c] + rest))) == Run(Step(Step(Step(s, a), b), c), rest)
  {
    RunStep(s, a, [b] + ([c] + rest));
    RunStep(Step(s, a), b, [c] + rest);
    RunStep(Step(Step(s, a), b), c, rest);
  }

  lemma TryLoads(s: State, t: Task, bytes: nat)
    requires Idle(s, t) && s.limit > 0
    ensures Step(Step(s, TryReserve(t, bytes)), Load(t)) == s.(at := s.at[t := Loaded(bytes, false, s.used)])
  {
    MoveOn(s.at, t, Trying(bytes, false), Loaded(bytes, false, s.used));
  }

  /** `try_reserve` on its own: exactly the bytes that fit are counted and held. */
  lemma TryReserveAlone(s: State, t: Task, bytes: nat)
    requires Idle(s, t) && s.limit > 0
    ensures Run(s, [TryReserve(t, bytes)] + ([Load(t)] + ([CompareExchange(t)] + [])))
         == if s.used + bytes <= s.limit then s.(used := s.used + bytes, held := s.held + [bytes]) else s
  {
    RunThree(s, TryReserve(t, bytes), Load(t), CompareExchange(t), []);
    TryLoads(s, t, bytes);
    BackToIdle(s.at, t, Loaded(bytes, false, s.used));
  }

  lemma PollLoads(s: State, t: Task, bytes: nat)
    requires Idle(s, t) && s.limit > 0 && s.lockedBy.None?
    ensures Step(Step(s, PollReserve(t, bytes)), Load(t))
         == s.(woken := s.woken - {t}, lockedBy := Some(t), at := s.at[t := Loaded(bytes, true, s.used)])
  {
    assert s.at[t := Trying(bytes, true)][t := Loaded(bytes, true, s.used)] == s.at[t := Loaded(bytes, true, s.used)];
  }

  lemma LoadedAttempts(s: State, t: Task, bytes: nat)
    requires t in s.at && s.at[t] == Loaded(bytes, true, s.used)
    ensures Step(s, CompareExchange(t))
         == if s.used + bytes <= s.limit then s.(used := s.used + bytes, held := s.held + [bytes], at := s.at[t := Granted])
            else s.(at := s.at[t := Refused(bytes)])
  {
  }

  /** A poll after its attempt, still under the lock. */
  function Attempted(s: State, t: Task, bytes: nat): State {
    var locked := s.(woken := s.woken - {t}, lockedBy := Some(t));
    if s.used + bytes <= s.limit then locked.(used := s.used + bytes, held := s.held + [bytes], at := s.at[t := Granted])
    else locked.(at := s.at[t := Refused(bytes)])
  }

  lemma PollAttempts(s: State, t: Task, bytes: nat)
    requires Idle(s, t) && s.limit > 0 && s.lockedBy.None?
    ensures Step(Step(Step(s, PollReserve(t, bytes)), Load(t)), CompareExchange(t)) == Attempted(s, t, bytes)
  {
    PollLoads(s, t, bytes);
    LoadedAttempts(Step(Step(s, PollReserve(t, bytes)), Load(t)), t, bytes);
    MoveOn(s.at, t, Loaded(bytes, true, s.used), Granted);
    MoveOn(s.at, t, Loaded(bytes, true, s.used), Refused(bytes));
  }

  lemma Leaves(s: State, at: map<Task, Position>, t: Task)
    requires t !in at && s.at == at[t := Granted] && s.lockedBy == Some(t)
    ensures Step(s, Unregister(t))
         == s.(lockedBy := None, at := at, slots := s.slots - {t},
               parked := if t in s.slots then s.parked - {s.slots[t]} else s.parked)
  {
    BackToIdle(at, t, Granted);
    assert s.parked - {} == s.parked;
  }

  /** A poll that fits: the bytes are counted and held, and the caller's registration is gone. */
  lemma PollReady(s: State, t: Task, bytes: nat)
    requires Idle(s, t) && s.limit > 0 && s.lockedBy.None? && s.used + bytes <= s.limit
    ensures Run(s, [PollReserve(t, bytes)] + ([Load(t)] + ([CompareExchange(t)] + ([Unregister(t)] + []))))
         == s.(used := s.used + bytes, held := s.held + [bytes], woken := s.woken - {t}, slots := s.slots - {t},
               parked := if t in s.slots then s.parked - {s.slots[t]} else s.parked)
  {
    RunThree(s, PollReserve(t, bytes), Load(t), CompareExchange(t), [Unregister(t)] + []);
    PollAttempts(s, t, bytes);
    var granted := Attempted(s, t, bytes);
    RunStep(granted, Unregister(t), []);
    Leaves(granted, s.at, t);
  }

  lemma Parks(s: State, at: map<Task, Position>, t: Task, bytes: nat)
    requires t !in at && s.at == at[t := Refused(bytes)] && s.lockedBy == Some(t)
    ensures var w, free := Waiter(t, bytes), s.(lockedBy := None, at := at);
            Step(s, Park(t)) ==
            if t in s.slots && s.slots[t] in s.parked then free.(parked := s.parked[s.slots[t] := w])
            else free.(parked := s.parked[s.nextId := w], slots := s.slots[t := s.nextId], nextId := s.nextId + 1)
  {
    BackToIdle(at, t, Refused(bytes));
  }

  /** A poll that does not fit: the caller is registered, under its old number if that is still live. */
  lemma PollPending(s: State, t: Task, bytes: nat)
    requires Idle(s, t) && s.limit > 0 && s.lockedBy.None? && s.used + bytes > s.limit
    ensures Run(s, [PollReserve(t, bytes)] + ([Load(t)] + ([CompareExchange(t)] + ([Park(t)] + []))))
         == if t in s.slots && s.slots[t] in s.parked
            then s.(woken := s.woken - {t}, parked := s.parked[s.slots[t] := Waiter(t, bytes)])
            else s.(woken := s.woken - {t}, parked := s.parked[s.nextId := Waiter(t, bytes)],
                    slots := s.slots[t := s.nextId], nextId := s.nextId + 1)
  {
    RunThree(s, PollReserve(t, bytes), Load(t), CompareExchange(t), [Park(t)] + []);
    PollAttempts(s, t, bytes);
    var refused := Attempted(s, t, bytes);
    RunStep(refused, Park(t), []);
    Parks(refused, s.at, t, bytes);
  }

  // ----- Operations that meet others -----

  /**
   One attempt, whatever others did since the load: it succeeds if the bytes fitted then and the counter is
   still what it was, it is refused if they did not fit, and otherwise it is made again for the same bytes.
   */
  lemma Attempt(s: State, t: Task, bytes: nat, polling: bool, current: nat)
    requires t in s.at && s.at[t] == Loaded(bytes, polling, current)
    ensures var s' := Step(s, CompareExchange(t));
            && (current + bytes <= s.limit && s.used == current ==> s'.held == s.held + [bytes] && s'.used == current + bytes)
            && (current + bytes <= s.limit && s.used != current ==> s' == s.(at := s.at[t := Trying(bytes, polling)]))
            && (current + bytes > s.limit ==> s' == s.(at := if polling then s.at[t := Refused(bytes)] else s.at - {t}))
  {
  }

  /** While one task is inside the lock, no other changes the registrations or takes the lock. */
  lemma LockExcludes(s: State, a: Action, t: Task)
    requires Locked(s) && s.lockedBy == Some(t) && a.task != t
    ensures var s' := Step(s, a); s'.parked == s.parked && s'.slots == s.slots && s'.nextId == s.nextId && s'.lockedBy == Some(t)
  {
  }

  /** A task that is inside an operation begins no other. */
  lemma OneOperationAtATime(s: State, a: Action)
    requires a.task in s.at && (a.TryReserve? || a.PollReserve? || a.Cancel? || a.Release?)
    ensures Step(s, a) == s
  {
  }

  lemma {:induction false} NothingHappens(s: State, actions: seq<Action>)
    requires s.limit == 0 && s.held == [] && s.slots == map[] && s.at == map[]
    ensures Run(s, actions) == s
    decreases |actions|
  {
    if actions != [] { NothingHappens(s, actions[1..]); }
  }

  /** A limit of 0 switches accounting off: nothing is ever counted, held or parked. */
  lemma NoLimitNoAccounting(actions: seq<Action>)
    ensures Run(Start(0), actions) == Start(0)
  {
    NothingHappens(Start(0), actions);
  }

  /** A caller that gives up takes its registration with it, and nobody else's. */
  lemma CancelledIsGone(s: State, t: Task, id: nat)
    requires Registered(s) && Idle(s, t) && s.lockedBy.None?
    ensures id in Step(s, Cancel(t)).parked <==> id in s.parked && s.parked[id].task != t
    ensures t !in Step(s, Cancel(t)).slots
  {
    if id in s.parked && t in s.slots && s.slots[t] in s.parked { SlotOwner(s, t); }
  }

  // ----- At rest -----

  /** When every reservation has been released and no operation is under way, nobody who fits is parked. */
  lemma EmptyBudgetParksNobody(limit: nat, actions: seq<Action>)
    ensures var s := Run(Start(limit), actions);
            s.held == [] && s.at == map[] ==> s.used == 0 && forall id :: id in s.parked ==> s.parked[id].bytes > limit
  {
    RunKeepsInvariant(Start(limit), actions);
  }
}
