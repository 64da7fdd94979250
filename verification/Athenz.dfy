/**
 The role-token cache of the Athenz provider. A refresh checks the cache, releases the lock,
 exchanges a signed claim for a token and stores the answer, so several refreshes may be under
 way at once; the machine below interleaves their steps in every possible way.
 */
module Athenz {
  import opened Wrappers
  import opened Deadlines

  type Token = seq<char>

  /** A cached role token; a pinned token has no deadline. */
  datatype CachedRoleToken = CachedRoleToken(token: Token, refreshAt: Option<int>)

  /** The advertised lifetime is in seconds. */
  datatype Response = Response(token: Token, expiresIn: nat)

  /** `exchanges` says whether a signer and a ZTS client are wired. */
  datatype Config = Config(exchanges: bool, margin: nat, max: int)

  // ----- One provider -----

  function Lifetime(r: Response): nat {
    r.expiresIn * SECOND
  }

  /** The lifetime less the margin, or the whole lifetime when the margin exceeds it. */
  function Effective(r: Response, margin: nat): nat {
    if margin <= Lifetime(r) then Lifetime(r) - margin else Lifetime(r)
  }

  /** `refresh_at_from_expires_in`; none when the one-hour fallback overflows too and panics. */
  function RefreshAt(now: int, r: Response, c: Config): Option<int> {
    ClampedDeadline(now, Effective(r, c.margin), c.max)
  }

  predicate NeedsRefresh(cache: Option<CachedRoleToken>, now: int) {
    match cache
    case None => true
    case Some(entry) => entry.refreshAt.Some? && now >= entry.refreshAt.value
  }

  /** The outcome of an exchange for the cache: unchanged when it fails or the deadline panics. */
  function Store(c: Config, cache: Option<CachedRoleToken>, now: int, reply: Option<Response>): Option<CachedRoleToken> {
    if reply.None? || RefreshAt(now, reply.value, c).None? then cache
    else Some(CachedRoleToken(reply.value.token, RefreshAt(now, reply.value, c)))
  }

  datatype Ensured = Fresh | NothingToDo | Refreshed | ExchangeFailed | Panicked

  class AthenzProvider {
    const config: Config
    var cache: Option<CachedRoleToken>

    /** `new` and the builder: an empty cache. */
    constructor Unfetched(config: Config)
      ensures this.config == config && cache == None
    {
      this.config := config;
      cache := None;
    }

    /** A pinned token, with nothing wired to replace it. */
    constructor WithRoleToken(margin: nat, max: int, token: Token)
      ensures config == Config(false, margin, max) && cache == Some(CachedRoleToken(token, None))
    {
      config := Config(false, margin, max);
      cache := Some(CachedRoleToken(token, None));
    }

    method Initial() returns (r: Option<Token>)
      ensures r == if cache.Some? then Some(cache.value.token) else None
    {
      match cache
      case None => return None;
      case Some(entry) => return Some(entry.token);
    }

    /**
     `ensure_role_token` run to its end with the ZTS answering `reply`. The deadline is the lifetime
     in seconds less the margin, or the whole lifetime when the margin exceeds it, after `now`; if
     that overflows, an hour after `now`.
     */
    method EnsureRoleToken(now: int, reply: Option<Response>) returns (r: Ensured)
      modifies this
      ensures cache == if NeedsRefresh(old(cache), now) && config.exchanges then Store(config, old(cache), now, reply)
                       else old(cache)
      ensures r.Fresh? <==> old(cache).Some? && (old(cache).value.refreshAt.None? || now < old(cache).value.refreshAt.value)
      ensures r.NothingToDo? <==> !r.Fresh? && !config.exchanges
      ensures r.ExchangeFailed? <==> !r.Fresh? && config.exchanges && reply.None?
      ensures !r.Refreshed? ==> cache == old(cache)
      ensures r.Refreshed? || r.Panicked? ==>
        && reply.Some?
        && var life := reply.value.expiresIn * 1_000_000_000;
           var due := now + (if config.margin <= life then life - config.margin else life);
           && (r.Panicked? <==> due > config.max && now + 3_600_000_000_000 > config.max)
           && (r.Refreshed? && due <= config.max ==> cache == Some(CachedRoleToken(reply.value.token, Some(due))))
           && (r.Refreshed? && due > config.max ==>
                 cache == Some(CachedRoleToken(reply.value.token, Some(now + 3_600_000_000_000))))
           && (r.Refreshed? ==> (NeedsRefresh(cache, now) <==> life == 0 || life == config.margin))
    {
      if !NeedsRefresh(cache, now) { return Fresh; }
      if !config.exchanges { return NothingToDo; }
      if reply.None? { return ExchangeFailed; }
      var refreshAt := RefreshAt(now, reply.value, config);
      if refreshAt.None? { return Panicked; }
      cache := Some(CachedRoleToken(reply.value.token, refreshAt));
      return Refreshed;
    }
  }

  // ----- Many refreshes at once -----

  /** Where a stored token comes from: the instant its refresh started, and its lifetime. */
  datatype Origin = Origin(fetched: int, lifetime: nat)

  /** The cache, the origin of its token, and the refreshes that wait for an answer. */
  datatype State = State(cache: Option<CachedRoleToken>, origin: Option<Origin>, waiting: map<nat, int>)

  /** A task begins a refresh at an instant of its own, or its exchange ends one way or the other. */
  datatype Action = Begin(task: nat, now: int) | Answered(task: nat, reply: Response) | Failed(task: nat)

  function Step(c: Config, s: State, a: Action): State {
    match a
    case Begin(task, now) =>
      if task in s.waiting || !NeedsRefresh(s.cache, now) || !c.exchanges then s
      else s.(waiting := s.waiting[task := now])
    case Answered(task, reply) =>
      if task !in s.waiting then s
      else
        var now := s.waiting[task];
        var left := s.waiting - {task};
        if RefreshAt(now, reply, c).None? then s.(waiting := left)
        else State(Store(c, s.cache, now, Some(reply)), Some(Origin(now, Lifetime(reply))), left)
    case Failed(task) => s.(waiting := s.waiting - {task})
  }

  function Run(c: Config, s: State, actions: seq<Action>): State
    decreases |actions|
  {
    if actions == [] then s else Run(c, Step(c, s, actions[0]), actions[1..])
  }

  /** An empty provider or a pinned one, with no refresh under way. */
  predicate Initial(s: State) {
    && s.waiting == map[] && s.origin == None
    && (s.cache.Some? ==> s.cache.value.refreshAt == None)
  }

  predicate Pinned(s: State) {
    s.cache.Some? && s.cache.value.refreshAt == None
  }

  /** How long before the end of its life a token is given up: the margin, unless that exceeds the life. */
  function Reserve(c: Config, o: Origin): nat {
    if c.margin <= o.lifetime then c.margin else 0
  }

  /** The deadline of a token: the end of its life less the reserve, or an hour when that overflows. */
  predicate DeadlineOf(c: Config, o: Origin, deadline: int) {
    var due := o.fetched + o.lifetime - Reserve(c, o);
    if due <= c.max then deadline == due else deadline == o.fetched + HOUR && deadline <= due
  }

  /** Every deadline belongs to the origin of the token; a pinned token is left alone. */
  predicate Sound(c: Config, s: State) {
    && (s.cache.Some? && !Pinned(s) ==> s.origin.Some? && DeadlineOf(c, s.origin.value, s.cache.value.refreshAt.value))
    && (Pinned(s) ==> s.waiting == map[])
  }

  lemma StepIsSound(c: Config, s: State, a: Action)
    requires Sound(c, s)
    ensures Sound(c, Step(c, s, a))
    ensures s.cache.Some? ==> Step(c, s, a).cache.Some?
    ensures Pinned(s) ==> Step(c, s, a) == s
  {
    if a.Answered? && a.task in s.waiting && RefreshAt(s.waiting[a.task], a.reply, c).Some? {
      ClampingShortens(s.waiting[a.task], Effective(a.reply, c.margin), c.max);
    }
    if a.Failed? && Pinned(s) { assert s.waiting - {a.task} == map[]; }
  }

  lemma {:induction false} RunIsSound(c: Config, s: State, actions: seq<Action>)
    requires Sound(c, s)
    ensures Sound(c, Run(c, s, actions))
    ensures s.cache.Some? ==> Run(c, s, actions).cache.Some?
    ensures Pinned(s) ==> Run(c, s, actions) == s
    decreases |actions|
  {
    if actions != [] {
      StepIsSound(c, s, actions[0]);
      RunIsSound(c, Step(c, s, actions[0]), actions[1..]);
    }
  }

  /**
   Under every interleaving, a token that is not pinned and is called fresh at `t` has not
   reached the end of its advertised life, whatever the margin and whether or not the one-hour
   fallback was taken.
   */
  lemma FreshTokenIsAlive(c: Config, s: State, actions: seq<Action>, t: int)
    requires Initial(s)
    ensures var end := Run(c, s, actions);
            !NeedsRefresh(end.cache, t) && !Pinned(end) ==>
              end.origin.Some? && t < end.origin.value.fetched + end.origin.value.lifetime
  {
    RunIsSound(c, s, actions);
  }

  /**
   The margin is kept too: a token whose life is at least the margin is called fresh only while more
   than the margin is left of it. Where the lifetime does not overflow the clock, that is exactly
   when; a token with a shorter life is then called fresh to its end.
   */
  lemma FreshTokenHasMargin(c: Config, s: State, actions: seq<Action>, t: int)
    requires Initial(s)
    ensures var end := Run(c, s, actions);
            end.cache.Some? && !Pinned(end) ==>
              && end.origin.Some?
              && var o := end.origin.value;
                 && (!NeedsRefresh(end.cache, t) && o.lifetime >= c.margin ==> t + c.margin < o.fetched + o.lifetime)
                 && (o.fetched + o.lifetime <= c.max && o.lifetime >= c.margin ==>
                       (!NeedsRefresh(end.cache, t) <==> t + c.margin < o.fetched + o.lifetime))
                 && (o.fetched + o.lifetime <= c.max && o.lifetime < c.margin ==>
                       (!NeedsRefresh(end.cache, t) <==> t < o.fetched + o.lifetime))
  {
    RunIsSound(c, s, actions);
  }

  /** A refresh that waits keeps its instant until its own exchange ends; nobody else can end it. */
  lemma WaitingIsKept(c: Config, s: State, a: Action, task: nat)
    requires task in s.waiting && a != Failed(task) && !(a.Answered? && a.task == task)
    ensures task in Step(c, s, a).waiting && Step(c, s, a).waiting[task] == s.waiting[task]
  {
  }

  /** A filled cache is never emptied, and a pinned token is never replaced, from any point on. */
  lemma CacheIsKept(c: Config, s: State, before: seq<Action>, after: seq<Action>)
    requires Initial(s)
    ensures var mid := Run(c, s, before);
            && (mid.cache.Some? ==> Run(c, mid, after).cache.Some?)
            && (Pinned(mid) ==> Run(c, mid, after).cache == mid.cache == s.cache)
  {
    RunIsSound(c, s, before);
    RunIsSound(c, Run(c, s, before), after);
    if !Pinned(s) { NeverBecomesPinned(c, s, before); }
  }

  lemma {:induction false} NeverBecomesPinned(c: Config, s: State, actions: seq<Action>)
    requires !Pinned(s)
    ensures !Pinned(Run(c, s, actions))
    decreases |actions|
  {
    if actions != [] { NeverBecomesPinned(c, Step(c, s, actions[0]), actions[1..]); }
  }

  // ----- One caller at a time -----

  /** A refresh that nothing interrupts, as two steps of the machine. */
  lemma UninterruptedRefresh(c: Config, s: State, task: nat, now: int, reply: Option<Response>)
    requires task !in s.waiting
    ensures var last := if reply.Some? then Answered(task, reply.value) else Failed(task);
            Run(c, s, [Begin(task, now), last]).cache
            == if NeedsRefresh(s.cache, now) && c.exchanges then Store(c, s.cache, now, reply) else s.cache
  {
    var last := if reply.Some? then Answered(task, reply.value) else Failed(task);
    var actions := [Begin(task, now), last];
    assert actions[1..] == [last] && [last][1..] == [];
    var mid := Step(c, s, actions[0]);
    assert Run(c, s, actions) == Run(c, mid, [last]);
    assert Run(c, mid, [last]) == Run(c, Step(c, mid, last), []);
  }

  /** One call of a sequential run. */
  datatype Refresh = Refresh(now: int, reply: Option<Response>)

  /** The successful exchanges of a sequential run. */
  function Successes(c: Config, cache: Option<CachedRoleToken>, calls: seq<Refresh>): nat
    decreases |calls|
  {
    if calls == [] then 0
    else
      var r := calls[0];
      if NeedsRefresh(cache, r.now) && c.exchanges && r.reply.Some? && RefreshAt(r.now, r.reply.value, c).Some? then
        1 + Successes(c, Store(c, cache, r.now, r.reply), calls[1..])
      else Successes(c, cache, calls[1..])
  }

  function AsCall(c: Config, r: Refresh): Call {
    Call(r.now, if r.reply.None? then None else RefreshAt(r.now, r.reply.value, c))
  }

  function AsCalls(c: Config, calls: seq<Refresh>): seq<Call> {
    seq(|calls|, i requires 0 <= i < |calls| => AsCall(c, calls[i]))
  }

  lemma {:induction false} SuccessesAreExchanges(c: Config, cache: Option<CachedRoleToken>, calls: seq<Refresh>)
    requires c.exchanges && (cache.Some? ==> cache.value.refreshAt.Some?)
    ensures Successes(c, cache, calls)
         == Exchanges(if cache.None? then None else cache.value.refreshAt, AsCalls(c, calls))
    decreases |calls|
  {
    if calls != [] {
      var r := calls[0];
      assert AsCalls(c, calls)[1..] == AsCalls(c, calls[1..]) && AsCalls(c, calls)[0] == AsCall(c, r);
      if NeedsRefresh(cache, r.now) && r.reply.Some? && RefreshAt(r.now, r.reply.value, c).Some? {
        SuccessesAreExchanges(c, Store(c, cache, r.now, r.reply), calls[1..]);
      } else {
        SuccessesAreExchanges(c, cache, calls[1..]);
      }
    }
  }

  lemma {:induction false} NothingExchanged(c: Config, cache: Option<CachedRoleToken>, calls: seq<Refresh>)
    requires !c.exchanges || (cache.Some? && cache.value.refreshAt.None?)
    ensures Successes(c, cache, calls) == 0
    decreases |calls|
  {
    if calls != [] { NothingExchanged(c, cache, calls[1..]); }
  }

  /**
   If the clock is read between `from` and `to`, and every answer is good for at least `life` after
   the margin, with `life` at most an hour, then there are at most `(to - from) / life + 1`
   successful exchanges.
   */
  lemma RefreshesAreRare(c: Config, cache: Option<CachedRoleToken>, calls: seq<Refresh>, from: int, to: int, life: int)
    requires 0 < life <= HOUR && from <= to
    requires forall i :: 0 <= i < |calls| ==>
               from <= calls[i].now <= to && (calls[i].reply.Some? ==> Effective(calls[i].reply.value, c.margin) >= life)
    ensures Successes(c, cache, calls) <= (to - from) / life + 1
  {
    if !c.exchanges || (cache.Some? && cache.value.refreshAt.None?) {
      NothingExchanged(c, cache, calls);
      return;
    }
    SuccessesAreExchanges(c, cache, calls);
    var cs := AsCalls(c, calls);
    forall i | 0 <= i < |cs| && cs[i].stale.Some? ensures cs[i].stale.value >= cs[i].now + life {
      ClampingShortens(calls[i].now, Effective(calls[i].reply.value, c.margin), c.max);
    }
    ExchangeBound(if cache.None? then None else cache.value.refreshAt, cs, from, to, life);
  }
}
