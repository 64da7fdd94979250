/**
 The access-token cache of the OAuth2 client-credentials flow (sections 4.4 and 5.1 of RFC 6749)
 and the token an admin request takes from it. Several fetches may be under way at once, and
 time passes between the moment a token is issued and the moment it is received.
 */
module OAuth2 {
  import opened Wrappers
  import opened Deadlines

  type Token = seq<char>

  datatype CachedToken = CachedToken(token: Token, deadline: int)

  /** The advertised lifetime is in seconds. */
  datatype Response = Response(token: Token, expiresIn: nat)

  datatype Config = Config(leeway: nat, max: int)

  // ----- One flow -----

  function Lifetime(r: Response): nat {
    r.expiresIn * SECOND
  }

  /** `deadline_from_expires_in`; none when the one-hour fallback overflows too and panics. */
  function Deadline(received: int, r: Response, c: Config): Option<int> {
    ClampedDeadline(received, Lifetime(r), c.max)
  }

  /** `needs_refresh`; none when adding the leeway to the clock overflows and panics. */
  function NeedsRefresh(cache: Option<CachedToken>, now: int, c: Config): Option<bool> {
    match cache
    case None => Some(true)
    case Some(cached) => if now + c.leeway > c.max then None else Some(now + c.leeway >= cached.deadline)
  }

  /** The cache after a reply received at `received`: unchanged when there is none or its deadline panics. */
  function Store(c: Config, cache: Option<CachedToken>, received: int, reply: Option<Response>): Option<CachedToken> {
    if reply.None? || Deadline(received, reply.value, c).None? then cache
    else Some(CachedToken(reply.value.token, Deadline(received, reply.value, c).value))
  }

  datatype Outcome = Done | FetchFailed | Panicked

  class ClientCredentialsFlow {
    const config: Config
    var cache: Option<CachedToken>

    constructor (config: Config)
      ensures this.config == config && cache == None
    {
      this.config := config;
      cache := None;
    }

    method Initial() returns (r: Option<Token>)
      ensures r == if cache.Some? then Some(cache.value.token) else None
    {
      match cache
      case None => return None;
      case Some(cached) => return Some(cached.token);
    }

    /**
     `fetch_token`, with the reply of the IDP and the clock when it arrives. The deadline is the
     lifetime in seconds after receipt, or an hour after it when that overflows.
     */
    method FetchToken(received: int, reply: Option<Response>) returns (r: Outcome)
      modifies this
      ensures cache == Store(config, old(cache), received, reply)
      ensures r.FetchFailed? <==> reply.None?
      ensures !r.Done? ==> cache == old(cache)
      ensures reply.Some? ==>
        var end := received + reply.value.expiresIn * 1_000_000_000;
        && (r.Panicked? <==> end > config.max && received + 3_600_000_000_000 > config.max)
        && (r.Done? && end <= config.max ==> cache == Some(CachedToken(reply.value.token, end)))
        && (r.Done? && end > config.max ==> cache == Some(CachedToken(reply.value.token, received + 3_600_000_000_000)))
    {
      if reply.None? { return FetchFailed; }
      var deadline := Deadline(received, reply.value, config);
      if deadline.None? { return Panicked; }
      cache := Some(CachedToken(reply.value.token, deadline.value));
      return Done;
    }

    /**
     `ensure_fresh`: it fetches when there is no token or the leeway reaches its deadline, and
     whenever it succeeds there is a cached token.
     */
    method EnsureFresh(now: int, received: int, reply: Option<Response>) returns (r: Outcome)
      modifies this
      ensures cache == if NeedsRefresh(old(cache), now, config) == Some(true) then Store(config, old(cache), received, reply)
                       else old(cache)
      ensures r.Done? ==> cache.Some?
      ensures old(cache).Some? && now + config.leeway > config.max ==> r.Panicked? && cache == old(cache)
      ensures old(cache).Some? && now + config.leeway <= config.max && now + config.leeway < old(cache).value.deadline ==>
                r.Done? && cache == old(cache)
      ensures old(cache).None? || (now + config.leeway <= config.max && now + config.leeway >= old(cache).value.deadline) ==>
                (r.FetchFailed? <==> reply.None?)
    {
      var needed := NeedsRefresh(cache, now, config);
      if needed.None? { return Panicked; }
      if !needed.value { return Done; }
      r := FetchToken(received, reply);
    }
  }

  // ----- Many fetches at once -----

  /** Where a cached token comes from: when it was issued and received, and its lifetime. */
  datatype Origin = Origin(issued: int, received: int, lifetime: nat)

  /**
   Where a call stands. Both reads of the clock come before the lock that goes with them.
   - `Looking`: has read the clock and is about to look at the cache;
   - `Waiting`: waits for the IDP;
   - `OnTheWay`: its token has been issued;
   - `Dated`: has read the clock, computed the deadline, and is about to store the token.
   */
  datatype Fetch =
    | Looking(now: int)
    | Waiting
    | OnTheWay(reply: Response, issued: int)
    | Dated(token: CachedToken, origin: Origin)

  datatype State = State(clock: int, cache: Option<CachedToken>, origin: Option<Origin>, fetches: map<nat, Fetch>)

  /**
   Time passes; a task begins `ensure_fresh` and then decides; or it calls `fetch_token`; the IDP
   issues a token for it; the reply arrives and is dated; it is stored; or the fetch fails.
   */
  datatype Action =
    | Tick(d: nat)
    | Ensure(task: nat)
    | Decide(task: nat)
    | Fetching(task: nat)
    | Issue(task: nat, reply: Response)
    | Arrive(task: nat)
    | Install(task: nat)
    | Fail(task: nat)

  function Step(c: Config, s: State, a: Action): State {
    match a
    case Tick(d) => s.(clock := s.clock + d)
    case Ensure(task) => if task in s.fetches then s else s.(fetches := s.fetches[task := Looking(s.clock)])
    case Decide(task) =>
      if task !in s.fetches || !s.fetches[task].Looking? then s
      else if NeedsRefresh(s.cache, s.fetches[task].now, c) == Some(true) then s.(fetches := s.fetches[task := Waiting])
      else s.(fetches := s.fetches - {task})
    case Fetching(task) => if task in s.fetches then s else s.(fetches := s.fetches[task := Waiting])
    case Issue(task, reply) =>
      if task in s.fetches && s.fetches[task].Waiting? then s.(fetches := s.fetches[task := OnTheWay(reply, s.clock)]) else s
    case Arrive(task) =>
      if task !in s.fetches || !s.fetches[task].OnTheWay? then s
      else
        var OnTheWay(reply, issued) := s.fetches[task];
        var deadline := Deadline(s.clock, reply, c);
        if deadline.None? then s.(fetches := s.fetches - {task})
        else
          var dated := Dated(CachedToken(reply.token, deadline.value), Origin(issued, s.clock, Lifetime(reply)));
          s.(fetches := s.fetches[task := dated])
    case Install(task) =>
      if task !in s.fetches || !s.fetches[task].Dated? then s
      else
        var Dated(token, origin) := s.fetches[task];
        State(s.clock, Some(token), Some(origin), s.fetches - {task})
    case Fail(task) =>
      if task in s.fetches && (s.fetches[task].Waiting? || s.fetches[task].OnTheWay?) then s.(fetches := s.fetches - {task})
      else s
  }

  function Run(c: Config, s: State, actions: seq<Action>): State
    decreases |actions|
  {
    if actions == [] then s else Run(c, Step(c, s, actions[0]), actions[1..])
  }

  predicate Initial(s: State) {
    s.cache == None && s.origin == None && s.fetches == map[]
  }

  /** The deadline lies within the advertised life counted from receipt, and receipt follows issue. */
  predicate SoundToken(clock: int, token: CachedToken, origin: Origin) {
    token.deadline <= origin.received + origin.lifetime && origin.issued <= origin.received <= clock
  }

  predicate Sound(s: State) {
    && (s.cache.Some? ==> s.origin.Some? && SoundToken(s.clock, s.cache.value, s.origin.value))
    && (forall task :: task in s.fetches && s.fetches[task].OnTheWay? ==> s.fetches[task].issued <= s.clock)
    && (forall task :: task in s.fetches && s.fetches[task].Dated? ==>
          SoundToken(s.clock, s.fetches[task].token, s.fetches[task].origin))
  }

  lemma StepIsSound(c: Config, s: State, a: Action)
    requires Sound(s)
    ensures Sound(Step(c, s, a))
    ensures s.cache.Some? ==> Step(c, s, a).cache.Some?
  {
    if a.Arrive? && a.task in s.fetches && s.fetches[a.task].OnTheWay? {
      var reply := s.fetches[a.task].reply;
      if Deadline(s.clock, reply, c).Some? { ClampingShortens(s.clock, Lifetime(reply), c.max); }
    }
  }

  lemma {:induction false} RunIsSound(c: Config, s: State, actions: seq<Action>)
    requires Sound(s)
    ensures Sound(Run(c, s, actions))
    ensures s.cache.Some? ==> Run(c, s, actions).cache.Some?
    decreases |actions|
  {
    if actions != [] {
      StepIsSound(c, s, actions[0]);
      RunIsSound(c, Step(c, s, actions[0]), actions[1..]);
    }
  }

  /**
   A call belongs to its task: no step of another task moves it. Its own steps only move it forward,
   from looking to waiting, on to an issued token, on to a dated one, until it is over.
   */
  lemma CallsMoveForward(c: Config, s: State, a: Action, task: nat)
    requires task in s.fetches
    ensures var before, after := s.fetches[task], Step(c, s, a).fetches;
            && (a.Tick? || a.task != task || a.Ensure? || a.Fetching? ==> task in after && after[task] == before)
            && (task in after && after[task] != before ==>
                  || (before.Looking? && a == Decide(task) && after[task] == Waiting)
                  || (before.Waiting? && a.Issue? && after[task] == OnTheWay(a.reply, s.clock))
                  || (before.OnTheWay? && a == Arrive(task) && after[task].Dated?))
            && (task !in after ==>
                  || (before.Looking? && a == Decide(task))
                  || (before.Waiting? && a == Fail(task))
                  || (before.OnTheWay? && (a == Fail(task) || a == Arrive(task)))
                  || (before.Dated? && a == Install(task)))
            && (a == Fail(task) && (before.Waiting? || before.OnTheWay?) ==> task !in after)
  {
  }

  lemma OnlyInstallStores(c: Config, s: State, a: Action)
    ensures !a.Install? ==> Step(c, s, a).cache == s.cache && Step(c, s, a).origin == s.origin
  {
  }

  /** No instant at or after the end of the token's life, counted from issue, counts as fresh. */
  ghost predicate NeverFreshWhenDead(c: Config, s: State)
    requires s.origin.Some?
  {
    forall t {:trigger NeedsRefresh(s.cache, t, c)} ::
      NeedsRefresh(s.cache, t, c) == Some(false) ==> t < s.origin.value.issued + s.origin.value.lifetime
  }

  /**
   Under every interleaving: a token that took at most the leeway to arrive is called fresh only
   before the end of its advertised life, counted from when it was issued, whether or not the
   one-hour fallback was taken.
   */
  lemma PromptTokenIsAlive(c: Config, s: State, actions: seq<Action>)
    requires Initial(s)
    ensures var end := Run(c, s, actions);
            end.cache.Some? ==>
              && end.origin.Some?
              && (end.origin.value.received - end.origin.value.issued <= c.leeway ==> NeverFreshWhenDead(c, end))
  {
    RunIsSound(c, s, actions);
  }

  /**
   Exactly when the promise holds: when the deadline is at most the leeway past the end of the
   token's life. Without the fallback that is when the token took at most the leeway to arrive.
   */
  lemma WhenFreshMeansAlive(c: Config, s: State)
    requires s.cache.Some? && s.origin.Some? && s.cache.value.deadline <= c.max
    ensures NeverFreshWhenDead(c, s)
            <==> s.cache.value.deadline <= s.origin.value.issued + s.origin.value.lifetime + c.leeway
    ensures s.cache.value.deadline == s.origin.value.received + s.origin.value.lifetime ==>
              (NeverFreshWhenDead(c, s) <==> s.origin.value.received - s.origin.value.issued <= c.leeway)
  {
    var last := s.cache.value.deadline - c.leeway - 1;
    assert NeedsRefresh(s.cache, last, c) == Some(false);
  }

  // ----- The token of an admin request -----

  /** The bearer token of a request: a cache miss and an empty token are refused alike. */
  function BearerToken(cache: Option<CachedToken>): Option<Token> {
    if cache.Some? && cache.value.token != [] then Some(cache.value.token) else None
  }

  /** The step at which a task's `ensure_fresh` returns without error. */
  predicate EnsureReturns(c: Config, s: State, a: Action) {
    match a
    case Decide(task) =>
      task in s.fetches && s.fetches[task].Looking? && NeedsRefresh(s.cache, s.fetches[task].now, c) == Some(false)
    case Install(task) => task in s.fetches && s.fetches[task].Dated?
    case _ => false
  }

  /**
   From the moment `ensure_fresh` has returned, whatever other tasks do, the request finds a
   cached token, and is refused only if that token is empty.
   */
  lemma RequestFindsToken(c: Config, s: State, before: seq<Action>, a: Action, after: seq<Action>)
    requires Initial(s) && EnsureReturns(c, Run(c, s, before), a)
    ensures var end := Run(c, Step(c, Run(c, s, before), a), after);
            end.cache.Some? && (BearerToken(end.cache).None? <==> end.cache.value.token == [])
  {
    RunIsSound(c, s, before);
    var mid := Run(c, s, before);
    StepIsSound(c, mid, a);
    RunIsSound(c, Step(c, mid, a), after);
  }

  lemma RunStep(c: Config, s: State, a: Action, rest: seq<Action>)
    ensures Run(c, s, [a] + rest) == Run(c, Step(c, s, a), rest)
  {
    assert ([a] + rest)[1..] == rest;
  }

  /** A refresh that nothing interrupts is one call of `ensure_fresh`. */
  lemma UninterruptedRefresh(c: Config, s: State, task: nat, reply: Response)
    requires task !in s.fetches
    ensures Run(c, s, [Ensure(task)] + ([Decide(task)] + ([Issue(task, reply)] + ([Arrive(task)] + ([Install(task)] + [])))))
              .cache
         == if NeedsRefresh(s.cache, s.clock, c) == Some(true) then Store(c, s.cache, s.clock, Some(reply)) else s.cache
  {
    var s1 := Step(c, s, Ensure(task));
    var s2 := Step(c, s1, Decide(task));
    var s3 := Step(c, s2, Issue(task, reply));
    var s4 := Step(c, s3, Arrive(task));
    RunStep(c, s, Ensure(task), [Decide(task)] + ([Issue(task, reply)] + ([Arrive(task)] + ([Install(task)] + []))));
    RunStep(c, s1, Decide(task), [Issue(task, reply)] + ([Arrive(task)] + ([Install(task)] + [])));
    RunStep(c, s2, Issue(task, reply), [Arrive(task)] + ([Install(task)] + []));
    RunStep(c, s3, Arrive(task), [Install(task)] + []);
    RunStep(c, s4, Install(task), []);
  }

  /** And so is a fetch that nobody checked for first. */
  lemma UninterruptedFetch(c: Config, s: State, task: nat, reply: Response)
    requires task !in s.fetches
    ensures Run(c, s, [Fetching(task)] + ([Issue(task, reply)] + ([Arrive(task)] + ([Install(task)] + [])))).cache
         == Store(c, s.cache, s.clock, Some(reply))
  {
    var s1 := Step(c, s, Fetching(task));
    var s2 := Step(c, s1, Issue(task, reply));
    var s3 := Step(c, s2, Arrive(task));
    RunStep(c, s, Fetching(task), [Issue(task, reply)] + ([Arrive(task)] + ([Install(task)] + [])));
    RunStep(c, s1, Issue(task, reply), [Arrive(task)] + ([Install(task)] + []));
    RunStep(c, s2, Arrive(task), [Install(task)] + []);
    RunStep(c, s3, Install(task), []);
  }

  // ----- One caller at a time -----

  /** One call of a sequential run: the check, the receipt, and the reply if the fetch succeeds. */
  datatype Refresh = Refresh(now: int, received: int, reply: Option<Response>)

  function Successes(c: Config, cache: Option<CachedToken>, calls: seq<Refresh>): nat
    decreases |calls|
  {
    if calls == [] then 0
    else
      var r := calls[0];
      if NeedsRefresh(cache, r.now, c) == Some(true) && r.reply.Some? && Deadline(r.received, r.reply.value, c).Some? then
        1 + Successes(c, Store(c, cache, r.received, r.reply), calls[1..])
      else Successes(c, cache, calls[1..])
  }

  /** Whether the check of a call panics instead of answering. */
  predicate Panics(c: Config, cache: Option<CachedToken>, r: Refresh) {
    NeedsRefresh(cache, r.now, c).None?
  }

  function Due(c: Config, cache: Option<CachedToken>): Option<int> {
    if cache.None? then None else Some(cache.value.deadline - c.leeway)
  }

  /** The same run in the terms of the exchange bound; a call whose check panics exchanges nothing. */
  function AsCalls(c: Config, cache: Option<CachedToken>, calls: seq<Refresh>): (r: seq<Call>)
    ensures |r| == |calls|
    ensures forall i :: 0 <= i < |calls| ==>
              && r[i].now == calls[i].now
              && (r[i].stale.Some? ==>
                    && calls[i].reply.Some? && Deadline(calls[i].received, calls[i].reply.value, c).Some?
                    && r[i].stale.value == Deadline(calls[i].received, calls[i].reply.value, c).value - c.leeway)
    decreases |calls|
  {
    if calls == [] then []
    else
      var r := calls[0];
      var deadline := if r.reply.None? then None else Deadline(r.received, r.reply.value, c);
      var stale := if Panics(c, cache, r) || deadline.None? then None else Some(deadline.value - c.leeway);
      var next := if NeedsRefresh(cache, r.now, c) == Some(true) then Store(c, cache, r.received, r.reply) else cache;
      [Call(r.now, stale)] + AsCalls(c, next, calls[1..])
  }

  lemma {:induction false} SuccessesAreExchanges(c: Config, cache: Option<CachedToken>, calls: seq<Refresh>)
    ensures Successes(c, cache, calls) == Exchanges(Due(c, cache), AsCalls(c, cache, calls))
    decreases |calls|
  {
    if calls != [] {
      var r := calls[0];
      var next := if NeedsRefresh(cache, r.now, c) == Some(true) then Store(c, cache, r.received, r.reply) else cache;
      SuccessesAreExchanges(c, next, calls[1..]);
      assert AsCalls(c, cache, calls)[1..] == AsCalls(c, next, calls[1..]);
    }
  }

  /** All calls between two instants, each reply received after the call that asked for it. */
  predicate Between(calls: seq<Refresh>, from: int, to: int) {
    forall i :: 0 <= i < |calls| ==> from <= calls[i].now <= to && calls[i].now <= calls[i].received
  }

  /** A sequential run with a clock that does not run backwards. */
  predicate Sequential(calls: seq<Refresh>, from: int, to: int) {
    Between(calls, from, to) && forall i, j :: 0 <= i < j < |calls| ==> calls[i].now <= calls[j].now
  }

  /** Every reply is good for at least `life` after the leeway. */
  predicate LongLived(c: Config, calls: seq<Refresh>, life: int) {
    forall i :: 0 <= i < |calls| && calls[i].reply.Some? ==> Lifetime(calls[i].reply.value) >= life + c.leeway
  }

  /**
   At most `(to - from) / life + 1` successful exchanges, provided `life` and the leeway fit into
   the hour of the overflow fallback, or no advertised lifetime overflows. The clock may even run
   backwards between two calls.
   */
  lemma FetchesAreRare(c: Config, cache: Option<CachedToken>, calls: seq<Refresh>, from: int, to: int, life: int)
    requires 0 < life && from <= to && Between(calls, from, to) && LongLived(c, calls, life)
    requires || life + c.leeway <= HOUR
             || forall i :: 0 <= i < |calls| && calls[i].reply.Some? ==>
                  calls[i].received + Lifetime(calls[i].reply.value) <= c.max
    ensures Successes(c, cache, calls) <= (to - from) / life + 1
  {
    SuccessesAreExchanges(c, cache, calls);
    var cs := AsCalls(c, cache, calls);
    forall i | 0 <= i < |cs| && cs[i].stale.Some? ensures cs[i].stale.value >= cs[i].now + life {
      ClampingShortens(calls[i].received, Lifetime(calls[i].reply.value), c.max);
    }
    ExchangeBound(Due(c, cache), cs, from, to, life);
  }

  lemma OneMore(c: Config, cache: Option<CachedToken>, r: Refresh, rest: seq<Refresh>)
    requires NeedsRefresh(cache, r.now, c) == Some(true) && r.reply.Some?
    requires Deadline(r.received, r.reply.value, c).Some?
    ensures Successes(c, cache, [r] + rest) == 1 + Successes(c, Store(c, cache, r.received, r.reply), rest)
  {
    assert ([r] + rest)[1..] == rest;
  }

  /** When a token stored at 0 with the one-hour fallback is due. */
  function FallbackDue(c: Config): nat {
    if c.leeway <= HOUR then HOUR - c.leeway else 0
  }

  lemma TwoFetches(c: Config, r: Response, t: int)
    requires t == FallbackDue(c) && 2 * HOUR + c.leeway <= c.max < Lifetime(r)
    ensures Successes(c, None, [Refresh(0, 0, Some(r))] + ([Refresh(t, t, Some(r))] + [])) == 2
  {
    var cache := Some(CachedToken(r.token, HOUR));
    OneMore(c, None, Refresh(0, 0, Some(r)), [Refresh(t, t, Some(r))] + []);
    OneMore(c, cache, Refresh(t, t, Some(r)), []);
  }

  /**
   The proviso is needed: whenever `life` and the leeway together exceed the hour of the
   fallback, a token that claims to live past the end of the clock is fetched twice in less
   than `life`.
   */
  lemma FallbackBreaksBound(c: Config, r: Response, life: int, t: int, calls: seq<Refresh>)
    requires 0 < life <= HOUR && life + c.leeway > HOUR
    requires 2 * HOUR + c.leeway <= c.max < Lifetime(r)
    requires t == FallbackDue(c) && calls == [Refresh(0, 0, Some(r)), Refresh(t, t, Some(r))]
    ensures Sequential(calls, 0, t) && LongLived(c, calls, life)
    ensures Successes(c, None, calls) > t / life + 1
  {
    TwoFetches(c, r, t);
    assert calls == [Refresh(0, 0, Some(r))] + ([Refresh(t, t, Some(r))] + []);
    SmallQuotient(t, life);
  }

  lemma SmallQuotient(t: int, life: int)
    requires 0 <= t < life
    ensures t / life == 0
  {
  }

  /** In every sequential run, at most as many successful exchanges as lifetimes fit in its span, and one. */
  ghost predicate Rare(c: Config, life: int)
    requires life > 0
  {
    forall cache: Option<CachedToken>, calls: seq<Refresh>, from: int, to: int ::
      from <= to && Sequential(calls, from, to) && LongLived(c, calls, life) ==>
        Successes(c, cache, calls) <= (to - from) / life + 1
  }

  /** The bound holds for every run exactly when `life` and the leeway fit into the hour of the fallback. */
  lemma WhenFetchesAreRare(c: Config, life: int)
    requires 0 < life <= HOUR && 2 * HOUR + c.leeway <= c.max
    ensures Rare(c, life) <==> life + c.leeway <= HOUR
  {
    if life + c.leeway <= HOUR {
      forall cache: Option<CachedToken>, calls: seq<Refresh>, from: int, to: int
        | from <= to && Sequential(calls, from, to) && LongLived(c, calls, life)
        ensures Successes(c, cache, calls) <= (to - from) / life + 1
      {
        FetchesAreRare(c, cache, calls, from, to, life);
      }
    } else {
      var r, t := Response([], c.max / SECOND + 1), FallbackDue(c);
      var calls := [Refresh(0, 0, Some(r)), Refresh(t, t, Some(r))];
      FallbackBreaksBound(c, r, life, t, calls);
    }
  }
}
