/**
 * The Binance transport's request-weight budget and cooldown. Every request passes
 * through one lock, which is held until its response headers are in. Times are
 * nanoseconds since the zero Go time, so a transport that was never blocked has
 * `blockedUntil == 0`.
 */
module BinanceWeight {
  import opened Prelude

  const MINUTE := 60_000_000_000
  const SECOND := 1_000_000_000
  const BUDGET := 600

  datatype Sent = Sent(at: int, weight: nat)

  /** The `Retry-After` header: absent or malformed, delta seconds, or a date. */
  datatype RetryAfter = NoRetry | Seconds(n: int) | Date(at: int)

  datatype Response = Response(status: nat, usedWeight: Option<int>, bodyReadable: bool,
                               apiCode: Option<int>, retryAfter: RetryAfter)

  datatype Reply = TransportError | Answer(response: Response)

  datatype Outcome = Cancelled | Deferred(until: int) | OverBudget | SendFailed | BodyUnreadable | Answered(response: Response)

  function RequestWeight(isPrice: bool): nat {
    if isPrice then 4 else 20
  }

  function RetryDelay(r: Response, now: int): int {
    var base := if r.status == 418 then 5 * MINUTE else MINUTE;
    match r.retryAfter
    case NoRetry => base
    case Seconds(n) => if n > 0 then Max(base, n * SECOND) else base
    case Date(at) => Max(base, at - now)
  }

  predicate Limited(r: Response) {
    r.status == 429 || r.status == 418 || (r.status >= 400 && r.apiCode == Some(-1003))
  }

  /** `blockedUntil` after a response; the first assignment takes no maximum. */
  function Cooldown(blockedUntil: int, r: Response, now: int): int {
    var observed := if r.usedWeight.Some? && r.usedWeight.value >= 5000 then now + MINUTE else blockedUntil;
    if r.status >= 400 && !r.bodyReadable then observed
    else if Limited(r) then Max(observed, now + RetryDelay(r, now))
    else observed
  }

  /** The events that a call at `now` still counts. */
  function Active(events: seq<Sent>, now: int): seq<Sent> {
    if events == [] then []
    else
      var rest, last := Active(events[..|events| - 1], now), events[|events| - 1];
      if now - last.at < MINUTE then rest + [last] else rest
  }

  function Total(events: seq<Sent>): nat {
    if events == [] then 0 else Total(events[..|events| - 1]) + events[|events| - 1].weight
  }

  /** Weight sent at or after `lo` and before `hi`. */
  function WeightIn(log: seq<Sent>, lo: int, hi: int): nat {
    if log == [] then 0
    else
      var last := log[|log| - 1];
      WeightIn(log[..|log| - 1], lo, hi) + if lo <= last.at < hi then last.weight else 0
  }

  predicate Sorted(log: seq<Sent>) {
    forall i, j :: 0 <= i < j < |log| ==> log[i].at <= log[j].at
  }

  /** When request `i` went out, the minute that ended with it was within budget. */
  predicate WithinBudget(log: seq<Sent>, i: nat)
    requires i < |log|
  {
    WeightIn(log[..i + 1], log[i].at + 1 - MINUTE, log[i].at + 1) <= BUDGET
  }

  predicate Budgeted(log: seq<Sent>) {
    Sorted(log) && forall i :: 0 <= i < |log| ==> WithinBudget(log, i)
  }

  lemma {:induction false} WeightGrowsWithWindow(log: seq<Sent>, lo: int, hi: int, lo': int, hi': int)
    requires forall i :: 0 <= i < |log| && lo <= log[i].at < hi ==> lo' <= log[i].at < hi'
    ensures WeightIn(log, lo, hi) <= WeightIn(log, lo', hi')
  {
    if log != [] {
      WeightGrowsWithWindow(log[..|log| - 1], lo, hi, lo', hi');
    }
  }

  /** Any minute of the whole run, wherever it starts, weighs at most 600. */
  lemma {:induction false} EveryMinuteWithinBudget(log: seq<Sent>, start: int)
    requires Budgeted(log)
    ensures WeightIn(log, start, start + MINUTE) <= BUDGET
  {
    if log != [] {
      var n := |log| - 1;
      if start <= log[n].at < start + MINUTE {
        assert WithinBudget(log, n) && log[..n + 1] == log;
        WeightGrowsWithWindow(log, start, start + MINUTE, log[n].at + 1 - MINUTE, log[n].at + 1);
      } else {
        forall i | 0 <= i < n ensures WithinBudget(log[..n], i) {
          assert WithinBudget(log, i) && log[..n][..i + 1] == log[..i + 1];
        }
        EveryMinuteWithinBudget(log[..n], start);
      }
    }
  }

  /** `events` is the end of `log`, and what compaction dropped is a minute old. */
  predicate KeepsTail(log: seq<Sent>, events: seq<Sent>, now: int) {
    && |events| <= |log| && events == log[|log| - |events|..]
    && forall i :: 0 <= i < |log| - |events| ==> log[i].at <= now - MINUTE
  }

  lemma {:induction false} ActiveIsSuffix(events: seq<Sent>, now: int)
    requires Sorted(events)
    ensures |Active(events, now)| <= |events| && Active(events, now) == events[|events| - |Active(events, now)|..]
    ensures forall i :: 0 <= i < |events| - |Active(events, now)| ==> events[i].at <= now - MINUTE
    ensures forall i :: |events| - |Active(events, now)| <= i < |events| ==> events[i].at > now - MINUTE
  {
    if events != [] {
      var n := |events| - 1;
      ActiveIsSuffix(events[..n], now);
      var rest := Active(events[..n], now);
      if now - events[n].at < MINUTE {
        assert rest + [events[n]] == events[n - |rest|..];
      } else {
        assert forall i :: 0 <= i < n ==> events[..n][i].at <= events[n].at;
      }
    }
  }

  lemma {:induction false} ActiveTotal(events: seq<Sent>, now: int)
    requires forall i :: 0 <= i < |events| ==> events[i].at <= now
    ensures Total(Active(events, now)) == WeightIn(events, now + 1 - MINUTE, now + 1)
  {
    if events != [] {
      var n := |events| - 1;
      ActiveTotal(events[..n], now);
      var rest := Active(events[..n], now);
      assert (rest + [events[n]])[..|rest|] == rest;
    }
  }

  lemma {:induction false} WeightSkipsStale(log: seq<Sent>, lo: int, hi: int, stale: nat)
    requires stale <= |log|
    requires forall i :: 0 <= i < stale ==> log[i].at < lo
    ensures WeightIn(log, lo, hi) == WeightIn(log[stale..], lo, hi)
  {
    if stale < |log| {
      var n := |log| - 1;
      WeightSkipsStale(log[..n], lo, hi, stale);
      assert log[stale..][..n - stale] == log[..n][stale..];
    } else if log != [] {
      WeightSkipsStale(log[..|log| - 1], lo, hi, stale - 1);
      assert log[..|log| - 1][stale - 1..] == [];
    }
  }

  /** Compaction keeps exactly the last minute of the full history, so its total is that minute's weight. */
  lemma {:induction false} ActiveIsLastMinute(log: seq<Sent>, events: seq<Sent>, before: int, now: int)
    requires Sorted(log) && KeepsTail(log, events, before) && before <= now
    requires forall i :: 0 <= i < |log| ==> log[i].at <= now
    ensures KeepsTail(log, Active(events, now), now)
    ensures forall i :: |log| - |Active(events, now)| <= i < |log| ==> log[i].at > now - MINUTE
    ensures Total(Active(events, now)) == WeightIn(log, now + 1 - MINUTE, now + 1)
  {
    var cut := |log| - |events|;
    ActiveIsSuffix(events, now);
    ActiveTotal(events, now);
    WeightSkipsStale(log, now + 1 - MINUTE, now + 1, cut);
    forall i | 0 <= i < |log| - |Active(events, now)| ensures log[i].at <= now - MINUTE {
      if cut <= i { assert log[i] == events[i - cut]; }
    }
    forall i | |log| - |Active(events, now)| <= i < |log| ensures log[i].at > now - MINUTE {
      assert log[i] == events[i - cut];
    }
  }

  lemma {:induction false} InOrder(log: seq<Sent>)
    requires Budgeted(log)
    ensures Sorted(log)
  {
  }

  lemma {:induction false} SendingKeepsBudget(log: seq<Sent>, next: Sent)
    requires Budgeted(log)
    requires forall i :: 0 <= i < |log| ==> log[i].at <= next.at
    requires WeightIn(log, next.at + 1 - MINUTE, next.at + 1) + next.weight <= BUDGET
    ensures Budgeted(log + [next])
  {
    var all := log + [next];
    forall i | 0 <= i < |all| ensures WithinBudget(all, i) {
      if i < |log| {
        assert WithinBudget(log, i) && all[..i + 1] == log[..i + 1];
      } else {
        assert all[..i + 1] == all && all[..i] == log;
      }
    }
  }

  /** A cooldown that was announced once `sentBefore` requests had gone out. */
  datatype Announcement = Announcement(sentBefore: nat, until: int)

  /** No request went out before any cooldown announced ahead of it had passed. */
  predicate CooldownsRespected(log: seq<Sent>, announced: seq<Announcement>) {
    forall c, i :: 0 <= c < |announced| && announced[c].sentBefore <= i < |log| ==> announced[c].until <= log[i].at
  }

  class WeightTransport {
    var events: seq<Sent>
    var blockedUntil: int
    /** Every request sent, every cooldown announced, and the latest clock reading. */
    ghost var history: seq<Sent>
    ghost var announced: seq<Announcement>
    ghost var clock: int

    ghost predicate Valid()
      reads this
    {
      && 0 <= clock && Budgeted(history) && KeepsTail(history, events, clock)
      && (forall i :: 0 <= i < |history| ==> history[i].at <= clock)
      && CooldownsRespected(history, announced)
      && (forall c :: 0 <= c < |announced| ==> announced[c].sentBefore <= |history| && announced[c].until <= blockedUntil)
    }

    constructor (ghost start: nat)
      ensures Valid() && clock == start && history == [] && announced == [] && blockedUntil == 0
    {
      events, blockedUntil := [], 0;
      history, announced, clock := [], [], start;
    }

    /** Compacts `events` in place, as the source does inside one backing array. */
    method Compact(now: int) returns (used: nat)
      modifies this`events
      ensures events == Active(old(events), now)
      ensures used == Total(events)
    {
      ghost var all := events;
      var w := 0;
      used := 0;
      for i := 0 to |events|
        invariant w <= i && |events| == |all|
        invariant events[..w] == Active(all[..i], now)
        invariant events[i..] == all[i..]
        invariant used == Total(events[..w])
      {
        assert events[i] == all[i] && all[..i + 1][..i] == all[..i];
        if now - events[i].at < MINUTE {
          used := used + events[i].weight;
          ghost var kept := events[..w];
          ghost var rest := events[i + 1..];
          events := events[w := events[i]];
          w := w + 1;
          assert events[..w] == kept + [all[i]] && events[..w][..w - 1] == kept;
          assert events[i + 1..] == rest;
        }
      }
      assert all[..|events|] == all;
      events := events[..w];
    }

    /** Applies a response's cooldown, still under the lock. */
    method Settle(r: Response, after: int) returns (outcome: Outcome)
      requires Valid() && clock == after >= blockedUntil
      modifies this`blockedUntil, this`announced
      ensures Valid() && blockedUntil == Cooldown(old(blockedUntil), r, after) >= old(blockedUntil)
      ensures announced == old(announced) + [Announcement(|history|, blockedUntil)]
    {
      hide Budgeted, KeepsTail;
      outcome := Answered(r);
      if r.usedWeight.Some? && r.usedWeight.value >= 5000 {
        blockedUntil := after + MINUTE;
      }
      var limited := r.status == 429 || r.status == 418;
      if r.status >= 400 && !r.bodyReadable {
        outcome := BodyUnreadable;
      } else {
        if r.status >= 400 && r.apiCode == Some(-1003) { limited := true; }
        if limited {
          blockedUntil := Max(blockedUntil, after + RetryDelay(r, after));
        }
      }
      announced := announced + [Announcement(|history|, blockedUntil)];
    }

    /**
     * One request. `now` is the clock when the lock is taken and `after` when the
     * reply is in; nothing else can touch the transport in between.
     */
    method RoundTrip(cancelled: bool, isPrice: bool, now: int, reply: Reply, after: int) returns (outcome: Outcome)
      requires Valid() && clock <= now <= after
      modifies this
      ensures Valid()
      ensures blockedUntil >= old(blockedUntil)
      ensures history == old(history) || history == old(history) + [Sent(now, RequestWeight(isPrice))]
      ensures history != old(history) <==>
                !cancelled && now >= old(blockedUntil)
                && WeightIn(old(history), now + 1 - MINUTE, now + 1) + RequestWeight(isPrice) <= BUDGET
      ensures history != old(history) && reply.Answer? ==>
                blockedUntil == Cooldown(old(blockedUntil), reply.response, after)
                && announced == old(announced) + [Announcement(|history|, blockedUntil)]
      ensures history == old(history) || reply.TransportError? ==> blockedUntil == old(blockedUntil) && announced == old(announced)
    {
      hide WeightIn, Active, Total, Budgeted, Cooldown;
      if cancelled { return Cancelled; }
      if now < blockedUntil { return Deferred(blockedUntil); }
      var weight := RequestWeight(isPrice);
      assert Sorted(history) by { InOrder(history); }
      ActiveIsLastMinute(history, events, clock, now);
      var used := Compact(now);
      clock := now;
      if used + weight > BUDGET { return OverBudget; }
      SendingKeepsBudget(history, Sent(now, weight));
      history := history + [Sent(now, weight)];
      events := events + [Sent(now, weight)];
      clock := after;
      assert history[|history| - 1] == Sent(now, weight);
      if reply.TransportError? { return SendFailed; }
      outcome := Settle(reply.response, after);
    }
  }
}
