/**
 * The SnapTrade request limiter: a minimum interval, a pruned one-minute window
 * for the whole client and one per account, and the quotas the server reports.
 * Times and durations are nanoseconds; a zero Go time is `None`.
 */
module SnapTradeLimiter {
  import opened Prelude

  const MINUTE := 60_000_000_000

  /** What one response's rate-limit headers said. */
  datatype Quota = Quota(limit: int, remaining: int, resetAt: Option<int>)

  const NO_QUOTA := Quota(0, 0, None)

  /** The three integers parsed out of one header family (`None`: absent or malformed). */
  datatype QuotaHeaders = QuotaHeaders(limit: Option<nat>, remaining: Option<nat>, reset: Option<nat>)

  // ---------------------------------------------------------------- capacities

  function SafeCapacity(limit: int, percent: int): int {
    var capacity := limit * percent / 100;
    if capacity < 1 then 1 else capacity
  }

  /** Zero means that no limit is known. */
  function EffectiveCapacity(local: int, server: int, percent: int): int {
    var limit := if server > 0 && (local == 0 || server < local) then server else local;
    if limit <= 0 then 0 else SafeCapacity(limit, percent)
  }

  /** A server can only tighten a configured limit. */
  lemma {:induction false} CapacityNeverExceedsConfigured(local: int, server: int, percent: nat)
    requires local > 0
    ensures 1 <= EffectiveCapacity(local, server, percent) <= SafeCapacity(local, percent)
  {
  }

  // ------------------------------------------------------------------- delays

  /** Drops the leading stamps that are a minute old or more. */
  function Prune(stamps: seq<int>, now: int): seq<int> {
    if stamps != [] && stamps[0] <= now - MINUTE then Prune(stamps[1..], now) else stamps
  }

  /** The loop of `pruneWindow`. */
  method PruneWindow(stamps: seq<int>, now: int) returns (kept: seq<int>)
    ensures kept == Prune(stamps, now)
  {
    var first := 0;
    while first < |stamps| && stamps[first] <= now - MINUTE
      invariant first <= |stamps|
      invariant Prune(stamps[first..], now) == Prune(stamps, now)
    {
      first := first + 1;
    }
    kept := stamps[first..];
  }

  function LocalWindowWait(stamps: seq<int>, capacity: int, now: int): int {
    if capacity <= 0 || |stamps| < capacity then 0
    else stamps[|stamps| - capacity] + MINUTE - now
  }

  /** A family with no parseable header says nothing; a missing one reads as zero. */
  function QuotaFromHeaders(h: QuotaHeaders, now: int): Option<Quota> {
    if h.limit.None? && h.remaining.None? && h.reset.None? then None
    else
      var reset := if h.reset.Some? && h.reset.value > 0 then Some(now + h.reset.value * 1_000_000_000) else None;
      Some(Quota(OrZero(h.limit), OrZero(h.remaining), reset))
  }

  function OrZero(n: Option<nat>): nat {
    if n.Some? then n.value else 0
  }

  function ServerQuotaWait(quota: Quota, percent: int, now: int): int {
    if quota.limit <= 0 || quota.resetAt.None? || quota.resetAt.value <= now then 0
    else if quota.remaining > quota.limit - SafeCapacity(quota.limit, percent) then 0
    else quota.resetAt.value - now
  }

  /** One window with its capacity (0: unlimited) and the server quota beside it. */
  datatype Lane = Lane(stamps: seq<int>, capacity: int, quota: Quota)

  function LaneWait(lane: Lane, percent: int, now: int): int {
    Max(LocalWindowWait(Prune(lane.stamps, now), lane.capacity, now), ServerQuotaWait(lane.quota, percent, now))
  }

  /** Everything one pass of `wait` looks at. */
  datatype View = View(interval: int, percent: int, last: Option<int>, all: Lane, account: Option<Lane>)

  function IntervalWait(v: View, now: int): int {
    if v.last.None? then 0 else v.interval - (now - v.last.value)
  }

  /** The sleep that one pass of `wait` asks for; zero admits the request. */
  function Delay(v: View, now: int): int {
    var wait := Max(Max(0, IntervalWait(v, now)), LaneWait(v.all, v.percent, now));
    if v.account.None? then wait else Max(wait, LaneWait(v.account.value, v.percent, now))
  }

  predicate Sorted(stamps: seq<int>) {
    forall i, j :: 0 <= i < j < |stamps| ==> stamps[i] <= stamps[j]
  }

  predicate Ordered(v: View) {
    Sorted(v.all.stamps) && (v.account.Some? ==> Sorted(v.account.value.stamps))
  }

  /** Pruning keeps exactly the stamps of the last minute. */
  lemma {:induction false} PruneIsLastMinute(stamps: seq<int>, now: int)
    requires Sorted(stamps)
    ensures var kept := Prune(stamps, now);
            |kept| <= |stamps| && kept == stamps[|stamps| - |kept|..] && Sorted(kept)
            && (forall i :: 0 <= i < |stamps| - |kept| ==> stamps[i] <= now - MINUTE)
            && (forall i :: |stamps| - |kept| <= i < |stamps| ==> stamps[i] > now - MINUTE)
  {
    if stamps != [] && stamps[0] <= now - MINUTE {
      PruneIsLastMinute(stamps[1..], now);
      var kept := Prune(stamps[1..], now);
      forall i | 0 <= i < |stamps| - |kept| ensures stamps[i] <= now - MINUTE {
        if i > 0 { assert stamps[i] == stamps[1..][i - 1]; }
      }
      forall i | |stamps| - |kept| <= i < |stamps| ensures stamps[i] > now - MINUTE {
        assert stamps[i] == stamps[1..][i - 1];
      }
    }
  }

  /** A window's wait counts down to one fixed deadline, pruning included. */
  lemma {:induction false} LocalWaitCountsDown(stamps: seq<int>, capacity: int, now: int, later: int)
    requires Sorted(stamps) && now <= later
    ensures Max(0, LocalWindowWait(Prune(stamps, later), capacity, later))
         == Max(0, Max(0, LocalWindowWait(Prune(stamps, now), capacity, now)) - (later - now))
  {
    PruneIsLastMinute(stamps, now);
    PruneIsLastMinute(stamps, later);
  }

  /** Pruning earlier at `now` changes nothing that a later pass sees. */
  lemma {:induction false} PruneTwice(stamps: seq<int>, now: int, later: int)
    requires now <= later
    ensures Prune(Prune(stamps, now), later) == Prune(stamps, later)
  {
    if stamps != [] && stamps[0] <= now - MINUTE {
      PruneTwice(stamps[1..], now, later);
    }
  }

  /**
   * The computed delay is exact. With no other caller and unchanged quotas, a pass
   * made later still asks for precisely what is left of it: sleeping the whole
   * delay admits the request and no shorter sleep does.
   */
  lemma {:induction false} DelayIsExact(v: View, now: int, later: int)
    requires Ordered(v) && now <= later
    ensures Delay(v, later) == Max(0, Delay(v, now) - (later - now))
  {
    LocalWaitCountsDown(v.all.stamps, v.all.capacity, now, later);
    if v.account.Some? {
      LocalWaitCountsDown(v.account.value.stamps, v.account.value.capacity, now, later);
    }
  }

  function PruneLane(lane: Lane, now: int): Lane {
    lane.(stamps := Prune(lane.stamps, now))
  }

  function PruneView(v: View, now: int): View {
    v.(all := PruneLane(v.all, now),
       account := if v.account.None? then None else Some(PruneLane(v.account.value, now)))
  }

  /** A rejected pass writes its pruned lists back; no later pass can tell. */
  lemma {:induction false} ViewSurvivesPruning(v: View, now: int, later: int)
    requires now <= later
    ensures Delay(PruneView(v, now), later) == Delay(v, later)
  {
    PruneTwice(v.all.stamps, now, later);
    if v.account.Some? {
      PruneTwice(v.account.value.stamps, now, later);
    }
  }

  // ------------------------------------------------------------ request history

  /** One admitted request with the capacities in force when it was admitted. */
  datatype Admission = Admission(at: int, account: string, globalCap: int, accountCap: int)

  /** One entry of a single window's full history. */
  datatype Stamp = Stamp(at: int, cap: int)

  function GlobalLog(history: seq<Admission>): seq<Stamp> {
    seq(|history|, i requires 0 <= i < |history| => Stamp(history[i].at, history[i].globalCap))
  }

  /** The admissions that counted against `account`'s own window. */
  function AccountLog(history: seq<Admission>, account: string): seq<Stamp> {
    if history == [] then []
    else
      var rest, last := AccountLog(history[..|history| - 1], account), history[|history| - 1];
      if last.account == account && last.accountCap > 0 then rest + [Stamp(last.at, last.accountCap)] else rest
  }

  /** `kept` is the end of `log`, and all that was dropped is a minute old. */
  predicate KeepsTail(log: seq<Stamp>, kept: seq<int>, now: int) {
    && |kept| <= |log|
    && (forall j :: 0 <= j < |kept| ==> kept[j] == log[|log| - |kept| + j].at)
    && (forall i :: 0 <= i < |log| - |kept| ==> log[i].at <= now - MINUTE)
  }

  /** The request `cap` places before entry `i` was a minute old when entry `i` was admitted. */
  predicate HadRoom(log: seq<Stamp>, i: nat)
    requires i < |log|
  {
    log[i].cap >= 1 && (log[i].cap <= i ==> log[i - log[i].cap].at <= log[i].at - MINUTE)
  }

  /** Time order, and room under the capacity at every admission. */
  predicate Disciplined(log: seq<Stamp>) {
    && (forall i, j :: 0 <= i < j < |log| ==> log[i].at <= log[j].at)
    && (forall i :: 0 <= i < |log| ==> HadRoom(log, i))
  }

  /** Requests admitted at or after `lo` and before `hi`. */
  function CountIn(log: seq<Stamp>, lo: int, hi: int): (n: nat)
    ensures n <= |log|
  {
    if log == [] then 0
    else
      var n := CountIn(log[..|log| - 1], lo, hi);
      if lo <= log[|log| - 1].at < hi then n + 1 else n
  }

  lemma {:induction false} CountSkipsStale(log: seq<Stamp>, lo: int, hi: int, stale: nat)
    requires stale <= |log|
    requires forall i :: 0 <= i < stale ==> log[i].at < lo
    ensures CountIn(log, lo, hi) <= |log| - stale
  {
    if stale < |log| {
      CountSkipsStale(log[..|log| - 1], lo, hi, stale);
    } else if log != [] {
      CountSkipsStale(log[..|log| - 1], lo, hi, stale - 1);
    }
  }

  /** A one-minute window whose last request is the newest admission obeys the capacity of that admission. */
  lemma {:induction false} NewestMinuteIsBounded(log: seq<Stamp>, start: int)
    requires Disciplined(log) && log != []
    requires start <= log[|log| - 1].at < start + MINUTE
    ensures CountIn(log, start, start + MINUTE) <= log[|log| - 1].cap
  {
    var n := |log| - 1;
    assert HadRoom(log, n);
    if log[n].cap <= n {
      assert log[n - log[n].cap].at < start;
      CountSkipsStale(log, start, start + MINUTE, n + 1 - log[n].cap);
    }
  }

  /** No one-minute window, wherever it starts, holds more than the largest capacity that was ever in force. */
  lemma {:induction false} EveryMinuteIsBounded(log: seq<Stamp>, start: int, most: nat)
    requires Disciplined(log)
    requires forall i :: 0 <= i < |log| ==> log[i].cap <= most
    ensures CountIn(log, start, start + MINUTE) <= most
  {
    if log != [] {
      var n := |log| - 1;
      if log[n].at < start {
        CountSkipsStale(log, start, start + MINUTE, |log|);
      } else if log[n].at >= start + MINUTE {
        forall i | 0 <= i < n ensures HadRoom(log[..n], i) {
          assert HadRoom(log, i);
        }
        EveryMinuteIsBounded(log[..n], start, most);
      } else {
        NewestMinuteIsBounded(log, start);
      }
    }
  }

  /** Appending an admission that found room keeps the discipline. */
  lemma {:induction false} AdmissionKeepsDiscipline(log: seq<Stamp>, kept: seq<int>, capacity: int, now: int)
    requires Disciplined(log) && KeepsTail(log, kept, now)
    requires forall i :: 0 <= i < |log| ==> log[i].at <= now
    requires capacity >= 1 && |kept| < capacity
    ensures Disciplined(log + [Stamp(now, capacity)])
    ensures KeepsTail(log + [Stamp(now, capacity)], kept + [now], now)
  {
    var grown := log + [Stamp(now, capacity)];
    if capacity <= |log| {
      assert grown[|log| - capacity].at <= now - MINUTE;
    }
    forall i | 0 <= i < |log| ensures HadRoom(grown, i) {
      assert HadRoom(log, i);
    }
  }

  /** A view that asks for no delay has room in the client's window and in the account's. */
  lemma {:induction false} RoomForBoth(v: View, now: int)
    requires Ordered(v) && v.all.capacity >= 1 && Delay(v, now) <= 0
    ensures |Prune(v.all.stamps, now)| < v.all.capacity
    ensures v.account.Some? && v.account.value.capacity > 0 ==>
              |Prune(v.account.value.stamps, now)| < v.account.value.capacity
  {
    NoWaitMeansRoom(v.all.stamps, v.all.capacity, now);
    if v.account.Some? && v.account.value.capacity > 0 {
      NoWaitMeansRoom(v.account.value.stamps, v.account.value.capacity, now);
    }
  }

  /** A window that asks for no wait has room left under its capacity. */
  lemma {:induction false} NoWaitMeansRoom(stamps: seq<int>, capacity: int, now: int)
    requires Sorted(stamps) && capacity >= 1
    requires LocalWindowWait(Prune(stamps, now), capacity, now) <= 0
    ensures |Prune(stamps, now)| < capacity
  {
    PruneIsLastMinute(stamps, now);
  }

  /** Pruning a kept tail leaves a kept tail, namely all of the last minute. */
  lemma {:induction false} PruneKeepsTail(log: seq<Stamp>, kept: seq<int>, before: int, now: int)
    requires Disciplined(log) && KeepsTail(log, kept, before) && before <= now
    ensures Sorted(kept) && KeepsTail(log, Prune(kept, now), now)
    ensures forall i :: |log| - |Prune(kept, now)| <= i < |log| ==> log[i].at > now - MINUTE
  {
    PruneIsLastMinute(kept, now);
    var pruned := Prune(kept, now);
    forall i | 0 <= i < |log| - |pruned| ensures log[i].at <= now - MINUTE {
      if i >= |log| - |kept| { assert log[i].at == kept[i - (|log| - |kept|)]; }
    }
    forall i | |log| - |pruned| <= i < |log| ensures log[i].at > now - MINUTE {
      assert log[i].at == kept[i - (|log| - |kept|)];
    }
  }

  lemma {:induction false} AccountLogEntry(history: seq<Admission>, account: string, i: nat)
    requires i < |AccountLog(history, account)|
    ensures exists k :: 0 <= k < |history| && AccountLog(history, account)[i].at == history[k].at
                        && AccountLog(history, account)[i].cap == history[k].accountCap
                        && history[k].account == account
  {
    var n := |history| - 1;
    var rest := AccountLog(history[..n], account);
    if i < |rest| {
      AccountLogEntry(history[..n], account, i);
      var k :| 0 <= k < n && rest[i].at == history[..n][k].at && rest[i].cap == history[..n][k].accountCap
               && history[..n][k].account == account;
      assert history[k] == history[..n][k];
    } else {
      assert AccountLog(history, account)[i] == Stamp(history[n].at, history[n].accountCap);
    }
  }

  function AdmissionsOf(history: seq<Admission>, account: string): nat {
    if history == [] then 0
    else AdmissionsOf(history[..|history| - 1], account) + if history[|history| - 1].account == account then 1 else 0
  }

  /** With a configured account limit no admission of the account escapes its window. */
  lemma {:induction false} AccountLogIsComplete(history: seq<Admission>, account: string)
    requires forall k :: 0 <= k < |history| && history[k].account == account ==> history[k].accountCap > 0
    ensures |AccountLog(history, account)| == AdmissionsOf(history, account)
  {
    if history != [] {
      AccountLogIsComplete(history[..|history| - 1], account);
    }
  }

  /** The account's pruned list; a Go map yields an empty one for an unknown key. */
  function StampsOf(lists: map<string, seq<int>>, account: string): seq<int> {
    if account in lists then lists[account] else []
  }

  /** The compacted lists agree with the full history, every window of which is disciplined. */
  ghost predicate Consistent(history: seq<Admission>, now: int, global: seq<int>, lists: map<string, seq<int>>) {
    && (forall k :: 0 <= k < |history| ==> history[k].at <= now)
    && Agrees(GlobalLog(history), global, now)
    && (forall account :: AccountAgrees(history, lists, account, now))
  }

  ghost predicate Agrees(log: seq<Stamp>, kept: seq<int>, now: int) {
    Disciplined(log) && KeepsTail(log, kept, now)
  }

  ghost predicate AccountAgrees(history: seq<Admission>, lists: map<string, seq<int>>, account: string, now: int) {
    Agrees(AccountLog(history, account), StampsOf(lists, account), now)
  }

  /** The kept stamps are exactly those of the log's last minute. */
  predicate IsLastMinute(log: seq<Stamp>, kept: seq<int>, now: int) {
    KeepsTail(log, kept, now) && forall i :: 0 <= i < |log| ==> (log[i].at > now - MINUTE <==> i >= |log| - |kept|)
  }

  /** Moving the clock on and pruning the two lists of one request: each then holds exactly the last minute. */
  lemma {:induction false} PruningIsConsistent(history: seq<Admission>, before: int, global: seq<int>, lists: map<string, seq<int>>,
                            account: string, now: int)
    requires Consistent(history, before, global, lists) && before <= now
    ensures Consistent(history, now, Prune(global, now), lists)
    ensures Consistent(history, now, Prune(global, now), lists[account := Prune(StampsOf(lists, account), now)])
    ensures IsLastMinute(GlobalLog(history), Prune(global, now), now)
    ensures IsLastMinute(AccountLog(history, account), Prune(StampsOf(lists, account), now), now)
  {
    WaitingIsConsistent(history, before, global, lists, now);
    PruneKeepsTail(GlobalLog(history), global, before, now);
    assert AccountAgrees(history, lists, account, before);
    PruneKeepsTail(AccountLog(history, account), StampsOf(lists, account), before, now);
    var pruned := lists[account := Prune(StampsOf(lists, account), now)];
    forall other ensures AccountAgrees(history, pruned, other, now) {
      assert AccountAgrees(history, lists, other, now);
    }
  }

  /** Recording one admission that found room in both of its windows. */
  lemma {:induction false} AdmittingIsConsistent(history: seq<Admission>, global: seq<int>, lists: map<string, seq<int>>, next: Admission)
    requires Consistent(history, next.at, global, lists)
    requires next.globalCap >= 1 && |global| < next.globalCap
    requires next.accountCap > 0 ==> |StampsOf(lists, next.account)| < next.accountCap
    ensures var grown := if next.accountCap > 0 then lists[next.account := StampsOf(lists, next.account) + [next.at]] else lists;
            Consistent(history + [next], next.at, global + [next.at], grown)
  {
    var all := history + [next];
    assert all[..|history|] == history;
    assert GlobalLog(all) == GlobalLog(history) + [Stamp(next.at, next.globalCap)];
    AdmissionKeepsDiscipline(GlobalLog(history), global, next.globalCap, next.at);
    forall i | 0 <= i < |AccountLog(history, next.account)| ensures AccountLog(history, next.account)[i].at <= next.at {
      AccountLogEntry(history, next.account, i);
    }
    if next.accountCap > 0 {
      assert AccountAgrees(history, lists, next.account, next.at);
      AdmissionKeepsDiscipline(AccountLog(history, next.account), StampsOf(lists, next.account), next.accountCap, next.at);
    }
    var grown := if next.accountCap > 0 then lists[next.account := StampsOf(lists, next.account) + [next.at]] else lists;
    forall account ensures AccountAgrees(all, grown, account, next.at) {
      assert AccountAgrees(history, lists, account, next.at);
      if account == next.account && next.accountCap > 0 {
        assert AccountLog(all, account) == AccountLog(history, account) + [Stamp(next.at, next.accountCap)];
      } else {
        assert AccountLog(all, account) == AccountLog(history, account);
        assert StampsOf(grown, account) == StampsOf(lists, account);
      }
    }
  }

  function LastOf(history: seq<Admission>): Option<int> {
    if history == [] then None else Some(history[|history| - 1].at)
  }

  /** No capacity was ever above what the configured limits allow. */
  ghost predicate WithinConfigured(history: seq<Admission>, globalLimit: int, accountLimit: int, percent: int) {
    forall k :: 0 <= k < |history| ==>
      && history[k].globalCap <= SafeCapacity(globalLimit, percent)
      && (accountLimit > 0 && history[k].account != "" ==> 0 < history[k].accountCap <= SafeCapacity(accountLimit, percent))
  }

  /** The account's own window right after an admission that it counted. */
  lemma {:induction false} NewestAccountMinuteIsBounded(history: seq<Admission>, lists: map<string, seq<int>>, now: int, last: Admission)
    requires history != [] && last == history[|history| - 1] && last.accountCap > 0
    requires AccountAgrees(history, lists, last.account, now)
    ensures CountIn(AccountLog(history, last.account), last.at + 1 - MINUTE, last.at + 1) <= last.accountCap
  {
    var log := AccountLog(history, last.account);
    assert log[|log| - 1] == Stamp(last.at, last.accountCap);
    NewestMinuteIsBounded(log, last.at + 1 - MINUTE);
  }

  lemma {:induction false} WaitingIsConsistent(history: seq<Admission>, before: int, global: seq<int>, lists: map<string, seq<int>>, now: int)
    requires Consistent(history, before, global, lists) && before <= now
    ensures Consistent(history, now, global, lists)
  {
    forall account ensures AccountAgrees(history, lists, account, now) {
      assert AccountAgrees(history, lists, account, before);
    }
  }

  // ------------------------------------------------------------------ the object

  class RateLimiter {
    const minimumInterval: int
    const safetyPercent: nat
    const globalLimit: int
    const accountLimit: int
    var lastRequest: Option<int>
    var globalRequests: seq<int>
    var accountRequests: map<string, seq<int>>
    var globalServer: Quota
    var accountServer: map<string, Quota>
    /** Every admission ever made, and the latest clock reading. */
    ghost var history: seq<Admission>
    ghost var clock: int

    constructor (requestsPerMinute: int, personal: bool, accountPerMinute: int, interval: int, percent: nat, ghost start: int)
      ensures Valid() && history == [] && clock == start
      ensures 1 <= globalLimit <= 250 && (requestsPerMinute > 0 ==> globalLimit <= requestsPerMinute)
      ensures personal ==> 1 <= accountLimit <= 10
      ensures accountPerMinute > 0 ==> 1 <= accountLimit <= accountPerMinute
    {
      minimumInterval, safetyPercent := interval, percent;
      globalLimit := if 0 < requestsPerMinute < 250 then requestsPerMinute else 250;
      var limit := if personal then 10 else 0;
      accountLimit := if accountPerMinute > 0 && (limit == 0 || accountPerMinute < limit) then accountPerMinute else limit;
      lastRequest, globalRequests, accountRequests := None, [], map[];
      globalServer, accountServer := NO_QUOTA, map[];
      history, clock := [], start;
    }

    function AccountQuota(account: string): Quota
      reads this
    {
      if account in accountServer then accountServer[account] else NO_QUOTA
    }

    function GlobalCapacity(): int
      reads this
    {
      EffectiveCapacity(globalLimit, globalServer.limit, safetyPercent)
    }

    function AccountCapacity(account: string): int
      reads this
    {
      if account == "" then 0 else EffectiveCapacity(accountLimit, AccountQuota(account).limit, safetyPercent)
    }

    /** What a pass for `account` looks at; the empty account has no lane of its own. */
    function ViewFor(account: string): View
      reads this
    {
      View(minimumInterval, safetyPercent, lastRequest,
           Lane(globalRequests, GlobalCapacity(), globalServer),
           if account == "" then None
           else Some(Lane(StampsOf(accountRequests, account), AccountCapacity(account), AccountQuota(account))))
    }

    ghost predicate Valid()
      reads this
    {
      && globalLimit >= 1 && accountLimit >= 0
      && Consistent(history, clock, globalRequests, accountRequests)
      && WithinConfigured(history, globalLimit, accountLimit, safetyPercent)
      && lastRequest == LastOf(history)
    }

    lemma {:induction false} ViewIsOrdered(account: string)
      requires Valid()
      ensures Ordered(ViewFor(account))
    {
      assert AccountAgrees(history, accountRequests, account, clock);
      PruneKeepsTail(GlobalLog(history), globalRequests, clock, clock);
      PruneKeepsTail(AccountLog(history, account), StampsOf(accountRequests, account), clock, clock);
    }

    /** The pruning at the head of a pass. */
    method PruneLists(account: string, now: int)
      requires Valid() && clock <= now
      modifies this
      ensures Valid() && clock == now && history == old(history) && lastRequest == old(lastRequest)
      ensures globalServer == old(globalServer) && accountServer == old(accountServer)
      ensures ViewFor(account) == PruneView(old(ViewFor(account)), now)
      ensures Ordered(old(ViewFor(account))) && Ordered(ViewFor(account))
    {
      ViewIsOrdered(account);
      PruningIsConsistent(history, clock, globalRequests, accountRequests, account, now);
      globalRequests := PruneWindow(globalRequests, now);
      if account != "" {
        var kept := PruneWindow(StampsOf(accountRequests, account), now);
        accountRequests := accountRequests[account := kept];
      }
      clock := now;
      ViewIsOrdered(account);
    }

    /** The bookkeeping of an admitted pass. */
    method Admit(account: string, now: int)
      requires Valid() && clock == now
      requires |globalRequests| < GlobalCapacity()
      requires AccountCapacity(account) > 0 ==> |StampsOf(accountRequests, account)| < AccountCapacity(account)
      modifies this
      ensures Valid() && clock == now
      ensures globalServer == old(globalServer) && accountServer == old(accountServer)
      ensures history == old(history) + [Admission(now, account, GlobalCapacity(), AccountCapacity(account))]
    {
      hide Consistent, WithinConfigured;
      ghost var next := Admission(now, account, GlobalCapacity(), AccountCapacity(account));
      AdmittingIsConsistent(history, globalRequests, accountRequests, next);
      AdmittingStaysWithinConfigured(account, now);
      assert AccountCapacity(account) > 0 <==> account != "" && (accountLimit > 0 || AccountQuota(account).limit > 0);
      var stamps := StampsOf(accountRequests, account) + [now];
      var tracked := account != "" && (accountLimit > 0 || AccountQuota(account).limit > 0);
      lastRequest := Some(now);
      globalRequests := globalRequests + [now];
      if tracked {
        accountRequests := accountRequests[account := stamps];
      }
      history := history + [next];
    }

    lemma {:induction false} AdmittingStaysWithinConfigured(account: string, now: int)
      requires Valid()
      ensures WithinConfigured(history + [Admission(now, account, GlobalCapacity(), AccountCapacity(account))],
                               globalLimit, accountLimit, safetyPercent)
    {
      CapacityNeverExceedsConfigured(globalLimit, globalServer.limit, safetyPercent);
      if accountLimit > 0 {
        CapacityNeverExceedsConfigured(accountLimit, AccountQuota(account).limit, safetyPercent);
      }
    }

    /** The locked region of `wait`: admits at `now`, or says how long to sleep. */
    method Pass(account: string, now: int) returns (delay: int)
      requires Valid() && clock <= now
      modifies this
      ensures Valid() && clock == now
      ensures delay == old(Delay(ViewFor(account), now)) && delay >= 0
      ensures globalServer == old(globalServer) && accountServer == old(accountServer)
      ensures delay > 0 ==> history == old(history) && ViewFor(account) == PruneView(old(ViewFor(account)), now)
      ensures delay == 0 ==> history == old(history) + [Admission(now, account, GlobalCapacity(), AccountCapacity(account))]
    {
      ghost var v := ViewFor(account);
      PruneLists(account, now);
      delay := 0;
      if lastRequest.Some? {
        delay := Max(delay, minimumInterval - (now - lastRequest.value));
      }
      delay := Max(delay, LocalWindowWait(globalRequests, GlobalCapacity(), now));
      delay := Max(delay, ServerQuotaWait(globalServer, safetyPercent, now));
      if account != "" {
        var capacity := AccountCapacity(account);
        if capacity > 0 {
          delay := Max(delay, LocalWindowWait(StampsOf(accountRequests, account), capacity, now));
        }
        delay := Max(delay, ServerQuotaWait(AccountQuota(account), safetyPercent, now));
      }
      assert delay == Delay(v, now);
      if delay <= 0 {
        CapacityNeverExceedsConfigured(globalLimit, globalServer.limit, safetyPercent);
        RoomForBoth(v, now);
        Admit(account, now);
      }
    }

    /**
     * `wait`: passes and sleeps in turn. `readings` are the clock values that its
     * passes see; the context is cancelled during the sleep after the last of them.
     * With no other caller in between, the first reading at which the first delay
     * has fully elapsed is the one that admits.
     */
    method Wait(account: string, readings: seq<int>) returns (admitted: bool, passes: nat)
      requires Valid()
      requires Sorted(readings) && (readings != [] ==> clock <= readings[0])
      modifies this
      ensures Valid() && passes <= |readings|
      ensures admitted ==> passes > 0
      ensures admitted ==> history == old(history) + [Admission(readings[passes - 1], account, GlobalCapacity(), AccountCapacity(account))]
      ensures admitted ==> readings[passes - 1] >= readings[0] + old(Delay(ViewFor(account), readings[0]))
      ensures forall i :: 0 <= i < passes - (if admitted then 1 else 0) ==>
                readings[i] < readings[0] + old(Delay(ViewFor(account), readings[0]))
      ensures !admitted ==> passes == |readings| && history == old(history)
    {
      hide Consistent, WithinConfigured, Delay, PruneView;
      admitted, passes := false, 0;
      ghost var v := ViewFor(account);
      ViewIsOrdered(account);
      while passes < |readings|
        invariant passes <= |readings| && Valid() && history == old(history)
        invariant clock == if passes == 0 then old(clock) else readings[passes - 1]
        invariant forall later :: (passes == 0 || readings[passes - 1] <= later) ==> Delay(ViewFor(account), later) == Delay(v, later)
        invariant forall i :: 0 <= i < passes ==> readings[i] < readings[0] + Delay(v, readings[0])
      {
        var now := readings[passes];
        ghost var seen := ViewFor(account);
        ViewIsOrdered(account);
        DelayIsExact(v, readings[0], now);
        var delay := Pass(account, now);
        passes := passes + 1;
        if delay <= 0 {
          admitted := true;
          return;
        }
        forall later | now <= later ensures Delay(ViewFor(account), later) == Delay(v, later) {
          ViewSurvivesPruning(seen, now, later);
        }
      }
    }

    /** Right after an admission the last minute holds no more than the capacity it was admitted under. */
    lemma {:induction false} LastMinuteObeysItsCapacity(last: Admission)
      requires Valid() && history != [] && last == history[|history| - 1]
      ensures CountIn(GlobalLog(history), last.at + 1 - MINUTE, last.at + 1) <= last.globalCap
      ensures last.accountCap > 0 ==>
                CountIn(AccountLog(history, last.account), last.at + 1 - MINUTE, last.at + 1) <= last.accountCap
    {
      NewestMinuteIsBounded(GlobalLog(history), last.at + 1 - MINUTE);
      if last.accountCap > 0 {
        assert AccountAgrees(history, accountRequests, last.account, clock);
        NewestAccountMinuteIsBounded(history, accountRequests, clock, last);
      }
    }

    /** Whatever the headers did in between, no minute ever exceeds what the configured limits allow. */
    lemma {:induction false} ConfiguredLimitsHoldInEveryMinute(start: int, account: string)
      requires Valid()
      ensures CountIn(GlobalLog(history), start, start + MINUTE) <= SafeCapacity(globalLimit, safetyPercent)
      ensures account != "" && accountLimit > 0 ==>
                CountIn(AccountLog(history, account), start, start + MINUTE) <= SafeCapacity(accountLimit, safetyPercent)
    {
      EveryMinuteIsBounded(GlobalLog(history), start, SafeCapacity(globalLimit, safetyPercent));
      if account != "" && accountLimit > 0 {
        var log := AccountLog(history, account);
        assert AccountAgrees(history, accountRequests, account, clock);
        forall i | 0 <= i < |log| ensures log[i].cap <= SafeCapacity(accountLimit, safetyPercent) {
          AccountLogEntry(history, account, i);
        }
        EveryMinuteIsBounded(log, start, SafeCapacity(accountLimit, safetyPercent));
      }
    }

    /** Takes over the quotas that a response's headers carry. */
    method Observe(global: QuotaHeaders, perAccount: QuotaHeaders, account: string, now: int)
      requires Valid() && clock <= now
      modifies this
      ensures Valid() && clock == now && history == old(history) && lastRequest == old(lastRequest)
      ensures globalRequests == old(globalRequests) && accountRequests == old(accountRequests)
      ensures var seen := QuotaFromHeaders(global, now);
              globalServer == if seen.Some? then seen.value else old(globalServer)
      ensures var seen := QuotaFromHeaders(perAccount, now);
              accountServer == if account != "" && seen.Some? then old(accountServer)[account := seen.value] else old(accountServer)
    {
      WaitingIsConsistent(history, clock, globalRequests, accountRequests, now);
      clock := now;
      var seen := QuotaFromHeaders(global, now);
      if seen.Some? { globalServer := seen.value; }
      if account != "" {
        seen := QuotaFromHeaders(perAccount, now);
        if seen.Some? { accountServer := accountServer[account := seen.value]; }
      }
    }
  }
}
