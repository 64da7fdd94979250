/**
 Clock arithmetic shared by the credential caches, and the bound on how often a cache that
 respects a deadline can be refreshed.

 Instants and durations are nanoseconds as unbounded integers; `max` is the latest instant the
 platform can represent.
 */
module Deadlines {
  import opened Wrappers

  const SECOND := 1_000_000_000
  const HOUR := 3_600 * SECOND

  /** `Instant::checked_add`. */
  function CheckedAdd(now: int, d: int, max: int): Option<int> {
    if now + d <= max then Some(now + d) else None
  }

  /** The deadline after `d`, or one hour when that overflows; none when even that panics. */
  function ClampedDeadline(now: int, d: int, max: int): (r: Option<int>)
    ensures r.Some? ==> r.value == now + d || (r.value == now + HOUR && now + d > max)
    ensures r.None? <==> now + d > max && now + HOUR > max
  {
    match CheckedAdd(now, d, max)
    case Some(deadline) => Some(deadline)
    case None => CheckedAdd(now, HOUR, max)
  }

  /** Clamping only ever shortens a lifetime: the one-hour fallback is never past the real expiry. */
  lemma ClampingShortens(now: int, d: int, max: int)
    requires ClampedDeadline(now, d, max).Some?
    ensures ClampedDeadline(now, d, max).value <= now + d
    ensures ClampedDeadline(now, d, max).value >= now + (if d <= HOUR then d else HOUR)
  {
  }

  // ----- How often a cache is refreshed -----

  /**
   One call of a sequential run: the instant at which freshness is checked, and, when the
   exchange it would make succeeds, the instant from which the new credential counts as stale.
   */
  datatype Call = Call(now: int, stale: Option<int>)

  /** The number of successful exchanges; `due` is the instant from which an exchange is made. */
  function Exchanges(due: Option<int>, calls: seq<Call>): nat
    decreases |calls|
  {
    if calls == [] then 0
    else
      var c := calls[0];
      if (due.None? || c.now >= due.value) && c.stale.Some? then 1 + Exchanges(c.stale, calls[1..])
      else Exchanges(due, calls[1..])
  }

  /** The clock is read between the two instants; whether it runs backwards in between does not matter. */
  predicate Within(calls: seq<Call>, from: int, to: int) {
    forall i :: 0 <= i < |calls| ==> from <= calls[i].now <= to
  }

  /** Every new credential stays fresh for at least `life`. */
  predicate Lasts(calls: seq<Call>, life: int) {
    forall i :: 0 <= i < |calls| && calls[i].stale.Some? ==> calls[i].stale.value >= calls[i].now + life
  }

  lemma {:induction false} ExchangesAreSpaced(due: Option<int>, calls: seq<Call>, from: int, to: int, life: int)
    requires life > 0 && Within(calls, from, to) && Lasts(calls, life)
    ensures var k := Exchanges(due, calls);
            var start := if due.Some? && due.value > from then due.value else from;
            k == 0 || start + (k - 1) * life <= to
    decreases |calls|
  {
    if calls != [] {
      var c := calls[0];
      if (due.None? || c.now >= due.value) && c.stale.Some? {
        ExchangesAreSpaced(c.stale, calls[1..], from, to, life);
        var k := Exchanges(c.stale, calls[1..]);
        if k > 0 { assert c.now + life + (k - 1) * life == c.now + k * life; }
      } else {
        ExchangesAreSpaced(due, calls[1..], from, to, life);
      }
    }
  }

  lemma CancelFactor(a: int, b: int, m: int)
    requires m > 0 && a * m < b * m
    ensures a < b
  {
    assert (a - b) * m == a * m - b * m;
  }

  lemma QuotientBound(k: int, life: int, span: int)
    requires life > 0 && k * life <= span
    ensures k <= span / life
  {
    var q := span / life;
    assert (q + 1) * life == q * life + life;
    CancelFactor(k, q + 1, life);
  }

  /** In a span of `to - from` there are at most as many exchanges as lifetimes fit in it, and one. */
  lemma ExchangeBound(due: Option<int>, calls: seq<Call>, from: int, to: int, life: int)
    requires life > 0 && from <= to && Within(calls, from, to) && Lasts(calls, life)
    ensures Exchanges(due, calls) <= (to - from) / life + 1
  {
    ExchangesAreSpaced(due, calls, from, to, life);
    var k := Exchanges(due, calls);
    if k > 0 { QuotientBound(k - 1, life, to - from); }
  }
}
