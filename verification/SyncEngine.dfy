/**
 * How the sync engine saves one broker snapshot: a fixed order of writes, each of
 * which can fail and end the run. The database is a set of tables; the log records
 * every write that took effect.
 */
module SyncEngine {
  import opened Prelude

  /** An account as the broker reports it; `details` stands for its descriptor columns. */
  datatype Account = Account(id: string, enabled: bool, balance: int, details: int, lastTxSync: Option<int>)

  datatype Holdings = Holdings(account: string, content: int, partial: bool, capturedAt: Option<int>)

  /** Rows keyed by account; the source iterates a map, so any order may come. */
  datatype Batch = Batch(account: string, ids: seq<string>)

  datatype Snapshot = Snapshot(connection: Option<string>, connections: seq<string>, accounts: seq<Account>,
                               holdings: seq<Holdings>, activities: seq<Batch>, retracted: seq<Batch>)

  /** An account row with the progress columns that only status updates change. */
  datatype AccountRow = AccountRow(enabled: bool, balance: int, details: int, lastTxSync: Option<int>, txDone: bool,
                                   lastHoldingsSync: Option<int>, holdingsDone: bool)

  datatype Db = Db(connections: set<string>, accounts: map<string, AccountRow>,
                   holdings: map<string, Holdings>, activities: map<string, set<string>>)

  datatype Write = PutConnection(id: string)
                 | PutAccount(account: Account)
                 | PutHoldings(holdings: Holdings)
                 | MarkHoldings(id: string, at: int)
                 | PutActivities(batch: Batch)
                 | DropActivities(batch: Batch)
                 | MarkTransactions(id: string, at: int)

  function ActivitiesOf(db: Db, id: string): set<string> {
    if id in db.activities then db.activities[id] else {}
  }

  function IdSet(ids: seq<string>): set<string> {
    set k | 0 <= k < |ids| :: ids[k]
  }

  /**
   * One write. An account conflict refreshes descriptors and totals only; a new row is enabled whatever the broker
   * reports, since the column's default wins over an explicit false. A status update needs the row.
   */
  function Apply(db: Db, w: Write): Db {
    match w
    case PutConnection(id) => db.(connections := db.connections + {id})
    case PutAccount(a) =>
      var row := if a.id in db.accounts then db.accounts[a.id].(balance := a.balance, details := a.details)
                 else AccountRow(true, a.balance, a.details, None, false, None, false);
      db.(accounts := db.accounts[a.id := row])
    case PutHoldings(h) => db.(holdings := db.holdings[h.account := h])
    case MarkHoldings(id, at) =>
      if id in db.accounts then
        db.(accounts := db.accounts[id := db.accounts[id].(lastHoldingsSync := Some(at), holdingsDone := true)])
      else db
    case PutActivities(b) => db.(activities := db.activities[b.account := ActivitiesOf(db, b.account) + IdSet(b.ids)])
    case DropActivities(b) => db.(activities := db.activities[b.account := ActivitiesOf(db, b.account) - IdSet(b.ids)])
    case MarkTransactions(id, at) =>
      if id in db.accounts then
        db.(accounts := db.accounts[id := db.accounts[id].(lastTxSync := Some(at), txDone := true)])
      else db
  }

  function Replay(db: Db, log: seq<Write>): Db {
    if log == [] then db else Apply(Replay(db, log[..|log| - 1]), log[|log| - 1])
  }

  // ------------------------------------------------------------ what is planned

  predicate ReadsDisabled(rows: map<string, AccountRow>, readFails: set<string>, id: string) {
    id !in readFails && id in rows && !rows[id].enabled
  }

  /** The listed accounts that the engine could read as disabled. */
  function Disabled(snap: Snapshot, rows: map<string, AccountRow>, readFails: set<string>): set<string> {
    set k | 0 <= k < |snap.accounts| && ReadsDisabled(rows, readFails, snap.accounts[k].id) :: snap.accounts[k].id
  }

  function PartialAccounts(holdings: seq<Holdings>): set<string> {
    set k | 0 <= k < |holdings| && holdings[k].partial :: holdings[k].account
  }

  /** A partial snapshot keeps the stored totals where they can be read. */
  function Kept(a: Account, rows: map<string, AccountRow>, readFails: set<string>, partials: set<string>): Account {
    if a.id in partials && a.id !in readFails && a.id in rows then a.(balance := rows[a.id].balance) else a
  }

  function EnabledAccounts(accounts: seq<Account>, rows: map<string, AccountRow>, readFails: set<string>, partials: set<string>): seq<Account> {
    if accounts == [] then []
    else
      var rest, a := EnabledAccounts(accounts[..|accounts| - 1], rows, readFails, partials), accounts[|accounts| - 1];
      if ReadsDisabled(rows, readFails, a.id) then rest else rest + [Kept(a, rows, readFails, partials)]
  }

  function Connections(snap: Snapshot): seq<string> {
    if snap.connections == [] && snap.connection.Some? && snap.connection.value != "" then [snap.connection.value]
    else snap.connections
  }

  function HoldingsStep(h: Holdings, disabled: set<string>, now: int): seq<Write> {
    if h.account in disabled || h.partial then []
    else
      var at := if h.capturedAt.Some? then h.capturedAt.value else now;
      [PutHoldings(h.(capturedAt := Some(at))), MarkHoldings(h.account, at)]
  }

  function ActivityStep(b: Batch, disabled: set<string>): seq<Write> {
    if b.account in disabled || b.ids == [] then [] else [PutActivities(b)]
  }

  function RetractionStep(b: Batch, disabled: set<string>, partials: set<string>): seq<Write> {
    if b.account in disabled || b.ids == [] || b.account in partials then [] else [DropActivities(b)]
  }

  function TransactionStep(a: Account): seq<Write> {
    if a.lastTxSync.Some? then [MarkTransactions(a.id, a.lastTxSync.value)] else []
  }

  /** What a run decides before its first write to an account. */
  datatype Context = Context(disabled: set<string>, partials: set<string>, enabled: seq<Account>, now: int)

  function ContextOf(snap: Snapshot, rows: map<string, AccountRow>, readFails: set<string>, now: int): Context {
    var partials := PartialAccounts(snap.holdings);
    Context(Disabled(snap, rows, readFails), partials, EnabledAccounts(snap.accounts, rows, readFails, partials), now)
  }

  /** Phases in order; every step lists its writes. */
  function ConnectionSteps(snap: Snapshot): seq<seq<Write>> {
    seq(|Connections(snap)|, k requires 0 <= k < |Connections(snap)| => [PutConnection(Connections(snap)[k])])
  }

  function AccountSteps(c: Context): seq<seq<Write>> {
    seq(|c.enabled|, k requires 0 <= k < |c.enabled| => [PutAccount(c.enabled[k])])
  }

  function HoldingsSteps(snap: Snapshot, c: Context): seq<seq<Write>> {
    seq(|snap.holdings|, k requires 0 <= k < |snap.holdings| => HoldingsStep(snap.holdings[k], c.disabled, c.now))
  }

  function ActivitySteps(snap: Snapshot, c: Context): seq<seq<Write>> {
    seq(|snap.activities|, k requires 0 <= k < |snap.activities| => ActivityStep(snap.activities[k], c.disabled))
  }

  function RetractionSteps(snap: Snapshot, c: Context): seq<seq<Write>> {
    seq(|snap.retracted|, k requires 0 <= k < |snap.retracted| => RetractionStep(snap.retracted[k], c.disabled, c.partials))
  }

  function TransactionSteps(c: Context): seq<seq<Write>> {
    seq(|c.enabled|, k requires 0 <= k < |c.enabled| => TransactionStep(c.enabled[k]))
  }

  function DataSteps(snap: Snapshot, c: Context): seq<seq<Write>> {
    ConnectionSteps(snap) + AccountSteps(c) + HoldingsSteps(snap, c) + ActivitySteps(snap, c) + RetractionSteps(snap, c)
  }

  function Steps(snap: Snapshot, c: Context): seq<seq<Write>> {
    DataSteps(snap, c) + TransactionSteps(c)
  }

  function Flatten(steps: seq<seq<Write>>): seq<Write> {
    if steps == [] then [] else Flatten(steps[..|steps| - 1]) + steps[|steps| - 1]
  }

  lemma {:induction false} FlattenNext(steps: seq<seq<Write>>, k: nat)
    requires k < |steps|
    ensures Flatten(steps[..k + 1]) == Flatten(steps[..k]) + steps[k]
  {
    assert steps[..k + 1][..k] == steps[..k];
  }

  lemma {:induction false} FlattenPrefix(steps: seq<seq<Write>>, k: nat)
    requires k <= |steps|
    ensures Flatten(steps[..k]) <= Flatten(steps)
  {
    if k < |steps| {
      var n := |steps| - 1;
      assert steps[..n][..k] == steps[..k];
      FlattenPrefix(steps[..n], k);
    } else {
      assert steps[..k] == steps;
    }
  }

  lemma {:induction false} WriteComesFromAStep(steps: seq<seq<Write>>, i: nat) returns (k: nat)
    requires i < |Flatten(steps)|
    ensures k < |steps| && Flatten(steps)[i] in steps[k]
  {
    var n := |steps| - 1;
    if i < |Flatten(steps[..n])| {
      k := WriteComesFromAStep(steps[..n], i);
      assert steps[..n][..k] == steps[..k];
    } else {
      k := n;
    }
  }

  // ---------------------------------------------------------- every prefix is safe

  /** The account that a write changes. */
  function Target(w: Write): Option<string> {
    match w
    case PutConnection(_) => None
    case PutAccount(a) => Some(a.id)
    case PutHoldings(h) => Some(h.account)
    case MarkHoldings(id, _) => Some(id)
    case PutActivities(b) => Some(b.account)
    case DropActivities(b) => Some(b.account)
    case MarkTransactions(id, _) => Some(id)
  }

  lemma {:induction false} EnabledAreNotDisabled(accounts: seq<Account>, rows: map<string, AccountRow>, readFails: set<string>, partials: set<string>, k: nat)
    requires k < |EnabledAccounts(accounts, rows, readFails, partials)|
    ensures !ReadsDisabled(rows, readFails, EnabledAccounts(accounts, rows, readFails, partials)[k].id)
    ensures exists i :: 0 <= i < |accounts| && EnabledAccounts(accounts, rows, readFails, partials)[k] == Kept(accounts[i], rows, readFails, partials)
  {
    var n := |accounts| - 1;
    var rest := EnabledAccounts(accounts[..n], rows, readFails, partials);
    if k < |rest| {
      EnabledAreNotDisabled(accounts[..n], rows, readFails, partials, k);
      var i :| 0 <= i < n && rest[k] == Kept(accounts[..n][i], rows, readFails, partials);
      assert accounts[i] == accounts[..n][i];
    } else {
      assert EnabledAccounts(accounts, rows, readFails, partials)[k] == Kept(accounts[n], rows, readFails, partials);
    }
  }

  lemma {:induction false} StepsSpareDisabled(snap: Snapshot, db: Db, readFails: set<string>, now: int, k: nat, w: Write)
    requires k < |Steps(snap, ContextOf(snap, db.accounts, readFails, now))| && w in Steps(snap, ContextOf(snap, db.accounts, readFails, now))[k]
    ensures Target(w).Some? ==> Target(w).value !in Disabled(snap, db.accounts, readFails)
    ensures w.PutHoldings? ==> !w.holdings.partial
  {
    var c := ContextOf(snap, db.accounts, readFails, now);
    forall i | 0 <= i < |c.enabled| ensures c.enabled[i].id !in c.disabled {
      EnabledAreNotDisabled(snap.accounts, db.accounts, readFails, c.partials, i);
    }
  }

  /** No write of the whole run touches an account read as disabled or stores partial holdings. */
  lemma {:induction false} PlanSparesDisabled(snap: Snapshot, db: Db, readFails: set<string>, now: int, i: nat)
    requires i < |Flatten(Steps(snap, ContextOf(snap, db.accounts, readFails, now)))|
    ensures var w := Flatten(Steps(snap, ContextOf(snap, db.accounts, readFails, now)))[i];
            && (Target(w).Some? ==> Target(w).value !in Disabled(snap, db.accounts, readFails))
            && (w.PutHoldings? ==> !w.holdings.partial)
  {
    var steps := Steps(snap, ContextOf(snap, db.accounts, readFails, now));
    var k := WriteComesFromAStep(steps, i);
    StepsSpareDisabled(snap, db, readFails, now, k, Flatten(steps)[i]);
  }

  /** Everything the database holds about one account. */
  function Held(db: Db, id: string): (Option<AccountRow>, Option<Holdings>, set<string>) {
    (if id in db.accounts then Some(db.accounts[id]) else None,
     if id in db.holdings then Some(db.holdings[id]) else None,
     ActivitiesOf(db, id))
  }

  lemma {:induction false} ReplayLeavesOthersAlone(db: Db, log: seq<Write>, id: string)
    requires forall i :: 0 <= i < |log| ==> Target(log[i]) != Some(id)
    ensures Held(Replay(db, log), id) == Held(db, id)
  {
    if log != [] {
      ReplayLeavesOthersAlone(db, log[..|log| - 1], id);
    }
  }

  /** After any prefix of the writes, an account read as disabled is exactly what it was. */
  lemma {:induction false} DisabledAccountsAreUntouched(snap: Snapshot, db: Db, readFails: set<string>, now: int, log: seq<Write>, id: string)
    requires log <= Flatten(Steps(snap, ContextOf(snap, db.accounts, readFails, now)))
    requires id in Disabled(snap, db.accounts, readFails)
    ensures Held(Replay(db, log), id) == Held(db, id)
  {
    forall i | 0 <= i < |log| ensures Target(log[i]) != Some(id) {
      PlanSparesDisabled(snap, db, readFails, now, i);
    }
    ReplayLeavesOthersAlone(db, log, id);
  }

  lemma {:induction false} HoldingsComeFromTheLog(db: Db, log: seq<Write>, id: string)
    requires id in Replay(db, log).holdings
    ensures (id in db.holdings && Replay(db, log).holdings[id] == db.holdings[id])
         || (exists i :: 0 <= i < |log| && log[i].PutHoldings? && log[i].holdings == Replay(db, log).holdings[id])
  {
    if log != [] {
      var n := |log| - 1;
      if log[n].PutHoldings? && log[n].holdings.account == id {
        assert log[n].holdings == Replay(db, log).holdings[id];
      } else {
        HoldingsComeFromTheLog(db, log[..n], id);
        assert forall i :: 0 <= i < n ==> log[..n][i] == log[i];
      }
    }
  }

  /** After any prefix, holdings are the old ones or a complete snapshot; never a partial one. */
  lemma {:induction false} PartialHoldingsAreNeverStored(snap: Snapshot, db: Db, readFails: set<string>, now: int, log: seq<Write>, id: string)
    requires log <= Flatten(Steps(snap, ContextOf(snap, db.accounts, readFails, now)))
    requires id in Replay(db, log).holdings
    ensures (id in db.holdings && Replay(db, log).holdings[id] == db.holdings[id]) || !Replay(db, log).holdings[id].partial
  {
    HoldingsComeFromTheLog(db, log, id);
    if i :| 0 <= i < |log| && log[i].PutHoldings? && log[i].holdings == Replay(db, log).holdings[id] {
      PlanSparesDisabled(snap, db, readFails, now, i);
    }
  }

  predicate TxDone(db: Db, id: string) {
    id in db.accounts && db.accounts[id].txDone
  }

  lemma {:induction false} OnlyAMarkCompletes(db: Db, log: seq<Write>, id: string)
    requires TxDone(Replay(db, log), id) && !TxDone(db, id)
    ensures exists i :: 0 <= i < |log| && log[i].MarkTransactions? && log[i].id == id
  {
    var n := |log| - 1;
    if TxDone(Replay(db, log[..n]), id) {
      OnlyAMarkCompletes(db, log[..n], id);
      var i :| 0 <= i < n && log[..n][i].MarkTransactions? && log[..n][i].id == id;
      assert log[i] == log[..n][i];
    } else {
      assert log[n].MarkTransactions? && log[n].id == id;
    }
  }

  lemma {:induction false} FlattenAppend(a: seq<seq<Write>>, b: seq<seq<Write>>)
    ensures Flatten(a + b) == Flatten(a) + Flatten(b)
  {
    if b == [] {
      assert a + b == a;
    } else {
      var n := |b| - 1;
      assert (a + b)[..|a| + n] == a + b[..n];
      FlattenAppend(a, b[..n]);
    }
  }

  lemma {:induction false} NoMarkAmongData(snap: Snapshot, c: Context, i: nat)
    requires i < |Flatten(DataSteps(snap, c))|
    ensures !Flatten(DataSteps(snap, c))[i].MarkTransactions?
  {
    var k := WriteComesFromAStep(DataSteps(snap, c), i);
  }

  lemma {:induction false} StepIsIncluded(steps: seq<seq<Write>>, k: nat, w: Write)
    requires k < |steps| && w in steps[k]
    ensures w in Flatten(steps)
  {
    FlattenNext(steps, k);
    FlattenPrefix(steps, k + 1);
    var j :| 0 <= j < |steps[k]| && steps[k][j] == w;
    assert Flatten(steps)[|Flatten(steps[..k])| + j] == w;
  }

  /** The first mark comes after every write of data. */
  lemma {:induction false} MarkMeansDataIsStored(snap: Snapshot, c: Context, log: seq<Write>, i: nat)
    requires log <= Flatten(Steps(snap, c)) && i < |log| && log[i].MarkTransactions?
    ensures Flatten(DataSteps(snap, c)) <= log
  {
    FlattenAppend(DataSteps(snap, c), TransactionSteps(c));
    if i < |Flatten(DataSteps(snap, c))| {
      NoMarkAmongData(snap, c, i);
    }
  }

  /**
   * After any prefix of the writes: an account whose transactions have become complete
   * had every batch of the snapshot handed to storage before.
   */
  lemma {:induction false} CompletionComesAfterActivities(snap: Snapshot, db: Db, readFails: set<string>, now: int,
                                                          log: seq<Write>, id: string, k: nat)
    requires log <= Flatten(Steps(snap, ContextOf(snap, db.accounts, readFails, now)))
    requires TxDone(Replay(db, log), id) && !TxDone(db, id)
    requires k < |snap.activities| && snap.activities[k].ids != []
    requires snap.activities[k].account !in Disabled(snap, db.accounts, readFails)
    ensures PutActivities(snap.activities[k]) in log
  {
    var c := ContextOf(snap, db.accounts, readFails, now);
    OnlyAMarkCompletes(db, log, id);
    var i :| 0 <= i < |log| && log[i].MarkTransactions? && log[i].id == id;
    MarkMeansDataIsStored(snap, c, log, i);
    var at := |ConnectionSteps(snap) + AccountSteps(c) + HoldingsSteps(snap, c)| + k;
    assert DataSteps(snap, c)[at] == ActivitySteps(snap, c)[k] == [PutActivities(snap.activities[k])];
    StepIsIncluded(DataSteps(snap, c), at, PutActivities(snap.activities[k]));
  }

  /** Until a user switches it off, an account that the writes created is enabled. */
  lemma {:induction false} NewAccountsStartEnabled(db: Db, log: seq<Write>, id: string)
    requires id !in db.accounts && id in Replay(db, log).accounts
    ensures Replay(db, log).accounts[id].enabled
  {
    var before := log[..|log| - 1];
    if id in Replay(db, before).accounts {
      NewAccountsStartEnabled(db, before, id);
    }
  }

  /** No prefix ever changes a stored `sync_enabled`. */
  lemma {:induction false} UserPreferenceSurvives(db: Db, log: seq<Write>, id: string)
    requires id in db.accounts
    ensures id in Replay(db, log).accounts && Replay(db, log).accounts[id].enabled == db.accounts[id].enabled
  {
    if log != [] {
      UserPreferenceSurvives(db, log[..|log| - 1], id);
    }
  }

  lemma {:induction false} PutAccountIsEnabled(snap: Snapshot, c: Context, k: nat, a: Account)
    requires k < |Steps(snap, c)| && PutAccount(a) in Steps(snap, c)[k]
    ensures exists e :: 0 <= e < |c.enabled| && c.enabled[e] == a
  {
  }

  lemma {:induction false} PlannedAccountKeepsTotal(snap: Snapshot, db: Db, readFails: set<string>, now: int, i: nat)
    requires i < |Flatten(Steps(snap, ContextOf(snap, db.accounts, readFails, now)))|
    requires Flatten(Steps(snap, ContextOf(snap, db.accounts, readFails, now)))[i].PutAccount?
    ensures var a := Flatten(Steps(snap, ContextOf(snap, db.accounts, readFails, now)))[i].account;
            a.id in PartialAccounts(snap.holdings) && a.id !in readFails && a.id in db.accounts ==>
              a.balance == db.accounts[a.id].balance
  {
    var c := ContextOf(snap, db.accounts, readFails, now);
    var k := WriteComesFromAStep(Steps(snap, c), i);
    var a := Flatten(Steps(snap, c))[i].account;
    PutAccountIsEnabled(snap, c, k, a);
    var e :| 0 <= e < |c.enabled| && c.enabled[e] == a;
    EnabledAreNotDisabled(snap.accounts, db.accounts, readFails, c.partials, e);
  }

  /** Neither does one change the stored total of a readable account whose holdings came in partial. */
  lemma {:induction false} PartialSnapshotKeepsTotals(snap: Snapshot, db: Db, readFails: set<string>, now: int, log: seq<Write>, id: string)
    requires log <= Flatten(Steps(snap, ContextOf(snap, db.accounts, readFails, now)))
    requires id in PartialAccounts(snap.holdings) && id !in readFails && id in db.accounts
    ensures id in Replay(db, log).accounts && Replay(db, log).accounts[id].balance == db.accounts[id].balance
  {
    if log != [] {
      var n := |log| - 1;
      PartialSnapshotKeepsTotals(snap, db, readFails, now, log[..n], id);
      if log[n].PutAccount? {
        PlannedAccountKeepsTotal(snap, db, readFails, now, n);
      }
    }
  }

  // ------------------------------------------------------------------ the engine

  class Service {
    var db: Db
    /** Whether the client was told that its snapshot is saved. */
    var told: bool
    ghost var log: seq<Write>

    /** One write; write number `failAt` fails and changes nothing. */
    method Perform(w: Write, failAt: Option<nat>, n: nat) returns (ok: bool)
      requires n == |log|
      modifies `db, `log
      ensures ok <==> failAt != Some(n)
      ensures ok ==> log == old(log) + [w] && db == Apply(old(db), w)
      ensures !ok ==> log == old(log) && db == old(db)
    {
      if failAt == Some(n) { return false; }
      db, log := Apply(db, w), log + [w];
      ok := true;
    }

    /** The writes of one step, in order. */
    method RunStep(step: seq<Write>, failAt: Option<nat>, n: nat, ghost start: Db, ghost steps: seq<seq<Write>>, ghost k: nat)
      returns (ok: bool, n': nat)
      requires k < |steps| && steps[k] == step
      requires n == |log| && log == Flatten(steps[..k]) && db == Replay(start, log)
      modifies `db, `log
      ensures n' == |log| && db == Replay(start, log) && log <= Flatten(steps)
      ensures ok ==> log == Flatten(steps[..k + 1])
      ensures !ok ==> failAt == Some(n')
    {
      FlattenNext(steps, k);
      FlattenPrefix(steps, k + 1);
      n' := n;
      for j := 0 to |step|
        invariant n' == |log| && log == Flatten(steps[..k]) + step[..j] && db == Replay(start, log)
      {
        ghost var before := log;
        ok := Perform(step[j], failAt, n');
        assert step[..j + 1] == step[..j] + [step[j]];
        if !ok {
          assert before <= Flatten(steps);
          return;
        }
        assert log[..|log| - 1] == before;
        n' := n' + 1;
      }
      assert step[..|step|] == step;
      ok := true;
    }

    /** Reads each listed account and splits off the disabled ones. */
    method ReadAccounts(snap: Snapshot, readFails: set<string>, partials: set<string>)
      returns (disabled: set<string>, enabled: seq<Account>)
      ensures disabled == Disabled(snap, db.accounts, readFails)
      ensures enabled == EnabledAccounts(snap.accounts, db.accounts, readFails, partials)
    {
      disabled, enabled := {}, [];
      for k := 0 to |snap.accounts|
        invariant disabled == set j | 0 <= j < k && ReadsDisabled(db.accounts, readFails, snap.accounts[j].id) :: snap.accounts[j].id
        invariant enabled == EnabledAccounts(snap.accounts[..k], db.accounts, readFails, partials)
      {
        var a := snap.accounts[k];
        assert snap.accounts[..k + 1][..k] == snap.accounts[..k];
        if a.id !in readFails && a.id in db.accounts && !db.accounts[a.id].enabled {
          disabled := disabled + {a.id};
        } else {
          if a.id in partials && a.id !in readFails && a.id in db.accounts {
            a := a.(balance := db.accounts[a.id].balance);
          }
          enabled := enabled + [a];
        }
      }
      assert snap.accounts[..|snap.accounts|] == snap.accounts;
    }

    /** Upserts the connections. */
    method SaveConnections(ids: seq<string>, failAt: Option<nat>, n: nat, ghost start: Db, ghost steps: seq<seq<Write>>, ghost base: nat)
      returns (ok: bool, n': nat)
      requires base + |ids| <= |steps| && forall k :: 0 <= k < |ids| ==> steps[base + k] == [PutConnection(ids[k])]
      requires n == |log| && log == Flatten(steps[..base]) && db == Replay(start, log)
      modifies `db, `log
      ensures n' == |log| && db == Replay(start, log) && log <= Flatten(steps)
      ensures ok ==> log == Flatten(steps[..base + |ids|])
      ensures !ok ==> failAt == Some(n')
    {
      ok, n' := true, n;
      for k := 0 to |ids|
        invariant ok && n' == |log| && log == Flatten(steps[..base + k]) && db == Replay(start, log)
      {
        ok, n' := RunStep([PutConnection(ids[k])], failAt, n', start, steps, base + k);
        if !ok { return; }
      }
      FlattenPrefix(steps, base + |ids|);
    }

    /** Upserts the enabled accounts with their progress columns cleared. */
    method SaveAccounts(accounts: seq<Account>, failAt: Option<nat>, n: nat, ghost start: Db, ghost steps: seq<seq<Write>>, ghost base: nat)
      returns (ok: bool, n': nat)
      requires base + |accounts| <= |steps| && forall k :: 0 <= k < |accounts| ==> steps[base + k] == [PutAccount(accounts[k])]
      requires n == |log| && log == Flatten(steps[..base]) && db == Replay(start, log)
      modifies `db, `log
      ensures n' == |log| && db == Replay(start, log) && log <= Flatten(steps)
      ensures ok ==> log == Flatten(steps[..base + |accounts|])
      ensures !ok ==> failAt == Some(n')
    {
      ok, n' := true, n;
      for k := 0 to |accounts|
        invariant ok && n' == |log| && log == Flatten(steps[..base + k]) && db == Replay(start, log)
      {
        ok, n' := RunStep([PutAccount(accounts[k])], failAt, n', start, steps, base + k);
        if !ok { return; }
      }
      FlattenPrefix(steps, base + |accounts|);
    }

    /** Replaces complete holdings and then marks them. */
    method SaveHoldings(holdings: seq<Holdings>, disabled: set<string>, now: int, failAt: Option<nat>, n: nat, ghost start: Db, ghost steps: seq<seq<Write>>, ghost base: nat)
      returns (ok: bool, n': nat)
      requires base + |holdings| <= |steps| && forall k :: 0 <= k < |holdings| ==> steps[base + k] == HoldingsStep(holdings[k], disabled, now)
      requires n == |log| && log == Flatten(steps[..base]) && db == Replay(start, log)
      modifies `db, `log
      ensures n' == |log| && db == Replay(start, log) && log <= Flatten(steps)
      ensures ok ==> log == Flatten(steps[..base + |holdings|])
      ensures !ok ==> failAt == Some(n')
    {
      ok, n' := true, n;
      for k := 0 to |holdings|
        invariant ok && n' == |log| && log == Flatten(steps[..base + k]) && db == Replay(start, log)
      {
        ok, n' := RunStep(HoldingsStep(holdings[k], disabled, now), failAt, n', start, steps, base + k);
        if !ok { return; }
      }
      FlattenPrefix(steps, base + |holdings|);
    }

    /** Upserts each account's batch. */
    method SaveActivities(batches: seq<Batch>, disabled: set<string>, failAt: Option<nat>, n: nat, ghost start: Db, ghost steps: seq<seq<Write>>, ghost base: nat)
      returns (ok: bool, n': nat)
      requires base + |batches| <= |steps| && forall k :: 0 <= k < |batches| ==> steps[base + k] == ActivityStep(batches[k], disabled)
      requires n == |log| && log == Flatten(steps[..base]) && db == Replay(start, log)
      modifies `db, `log
      ensures n' == |log| && db == Replay(start, log) && log <= Flatten(steps)
      ensures ok ==> log == Flatten(steps[..base + |batches|])
      ensures !ok ==> failAt == Some(n')
    {
      ok, n' := true, n;
      for k := 0 to |batches|
        invariant ok && n' == |log| && log == Flatten(steps[..base + k]) && db == Replay(start, log)
      {
        ok, n' := RunStep(ActivityStep(batches[k], disabled), failAt, n', start, steps, base + k);
        if !ok { return; }
      }
      FlattenPrefix(steps, base + |batches|);
    }

    /** Deletes what the client retracted, except on partial snapshots. */
    method SaveRetractions(batches: seq<Batch>, disabled: set<string>, partials: set<string>, failAt: Option<nat>, n: nat, ghost start: Db, ghost steps: seq<seq<Write>>, ghost base: nat)
      returns (ok: bool, n': nat)
      requires base + |batches| <= |steps| && forall k :: 0 <= k < |batches| ==> steps[base + k] == RetractionStep(batches[k], disabled, partials)
      requires n == |log| && log == Flatten(steps[..base]) && db == Replay(start, log)
      modifies `db, `log
      ensures n' == |log| && db == Replay(start, log) && log <= Flatten(steps)
      ensures ok ==> log == Flatten(steps[..base + |batches|])
      ensures !ok ==> failAt == Some(n')
    {
      ok, n' := true, n;
      for k := 0 to |batches|
        invariant ok && n' == |log| && log == Flatten(steps[..base + k]) && db == Replay(start, log)
      {
        ok, n' := RunStep(RetractionStep(batches[k], disabled, partials), failAt, n', start, steps, base + k);
        if !ok { return; }
      }
      FlattenPrefix(steps, base + |batches|);
    }

    /** Publishes transaction completion last. */
    method MarkTransactionSync(accounts: seq<Account>, failAt: Option<nat>, n: nat, ghost start: Db, ghost steps: seq<seq<Write>>, ghost base: nat)
      returns (ok: bool, n': nat)
      requires base + |accounts| <= |steps| && forall k :: 0 <= k < |accounts| ==> steps[base + k] == TransactionStep(accounts[k])
      requires n == |log| && log == Flatten(steps[..base]) && db == Replay(start, log)
      modifies `db, `log
      ensures n' == |log| && db == Replay(start, log) && log <= Flatten(steps)
      ensures ok ==> log == Flatten(steps[..base + |accounts|])
      ensures !ok ==> failAt == Some(n')
    {
      ok, n' := true, n;
      for k := 0 to |accounts|
        invariant ok && n' == |log| && log == Flatten(steps[..base + k]) && db == Replay(start, log)
      {
        ok, n' := RunStep(TransactionStep(accounts[k]), failAt, n', start, steps, base + k);
        if !ok { return; }
      }
      FlattenPrefix(steps, base + |accounts|);
    }

    /** The plan before its last phase, and the positions at which its phases begin. */
    lemma {:induction false} PhasesInOrder(snap: Snapshot, c: Context)
      ensures var steps := Steps(snap, c);
              var b1 := |Connections(snap)|;
              var b2 := b1 + |c.enabled|;
              var b3 := b2 + |snap.holdings|;
              var b4 := b3 + |snap.activities|;
              var b5 := b4 + |snap.retracted|;
              && |steps| == b5 + |c.enabled|
              && (forall k :: 0 <= k < b1 ==> steps[k] == [PutConnection(Connections(snap)[k])])
              && (forall k :: 0 <= k < |c.enabled| ==> steps[b1 + k] == [PutAccount(c.enabled[k])])
              && (forall k :: 0 <= k < |snap.holdings| ==> steps[b2 + k] == HoldingsStep(snap.holdings[k], c.disabled, c.now))
              && (forall k :: 0 <= k < |snap.activities| ==> steps[b3 + k] == ActivityStep(snap.activities[k], c.disabled))
              && (forall k :: 0 <= k < |snap.retracted| ==> steps[b4 + k] == RetractionStep(snap.retracted[k], c.disabled, c.partials))
              && (forall k :: 0 <= k < |c.enabled| ==> steps[b5 + k] == TransactionStep(c.enabled[k]))
    {
    }

    /**
     * Saves a snapshot. What took effect is a prefix of the plan, all of it exactly on
     * success, and the client is told exactly then.
     */
    method PersistSnapshot(snap: Snapshot, readFails: set<string>, failAt: Option<nat>, now: int) returns (ok: bool)
      requires log == [] && !told
      modifies this
      ensures log <= Flatten(Steps(snap, ContextOf(snap, old(db).accounts, readFails, now)))
      ensures ok ==> log == Flatten(Steps(snap, ContextOf(snap, old(db).accounts, readFails, now)))
      ensures !ok ==> failAt == Some(|log|)
      ensures db == Replay(old(db), log)
      ensures told <==> ok
    {
      hide Replay, Apply, Connections, PartialAccounts, ActivitiesOf, IdSet, Kept, ReadsDisabled, Target, Flatten, Steps, Disabled, EnabledAccounts, HoldingsStep, ActivityStep, RetractionStep, TransactionStep;
      ghost var start := db;
      ghost var c := ContextOf(snap, db.accounts, readFails, now);
      ghost var steps := Steps(snap, c);
      PhasesInOrder(snap, c);
      NothingWrittenYet(start, steps);
      var connections, n := Connections(snap), 0;
      ok, n := SaveConnections(connections, failAt, n, start, steps, 0);
      if !ok { return; }
      ConnectionsLeaveAccounts(start, snap, c);
      var partials := PartialAccounts(snap.holdings);
      var disabled, enabled := ReadAccounts(snap, readFails, partials);
      ghost var base := |connections|;
      ok, n := SaveAccounts(enabled, failAt, n, start, steps, base);
      if !ok { return; }
      base := base + |enabled|;
      ok, n := SaveHoldings(snap.holdings, disabled, now, failAt, n, start, steps, base);
      if !ok { return; }
      base := base + |snap.holdings|;
      ok, n := SaveActivities(snap.activities, disabled, failAt, n, start, steps, base);
      if !ok { return; }
      base := base + |snap.activities|;
      ok, n := SaveRetractions(snap.retracted, disabled, partials, failAt, n, start, steps, base);
      if !ok { return; }
      base := base + |snap.retracted|;
      ok, n := MarkTransactionSync(enabled, failAt, n, start, steps, base);
      if !ok { return; }
      assert steps[..|steps|] == steps;
      told := true;
    }
  }

  lemma {:induction false} NothingWrittenYet(db: Db, steps: seq<seq<Write>>)
    ensures Flatten(steps[..0]) == [] && Replay(db, []) == db
  {
  }

  /** The accounts are read after the connection writes, which do not change them. */
  lemma {:induction false} ConnectionsLeaveAccounts(db: Db, snap: Snapshot, c: Context)
    ensures Replay(db, Flatten(Steps(snap, c)[..|Connections(snap)|])).accounts == db.accounts
  {
    var steps := Steps(snap, c)[..|Connections(snap)|];
    forall i | 0 <= i < |Flatten(steps)| ensures Flatten(steps)[i].PutConnection? {
      var k := WriteComesFromAStep(steps, i);
      assert steps[k] == [PutConnection(Connections(snap)[k])];
    }
    ConnectionWritesOnly(db, Flatten(steps));
  }

  lemma {:induction false} ConnectionWritesOnly(db: Db, log: seq<Write>)
    requires forall i :: 0 <= i < |log| ==> log[i].PutConnection?
    ensures Replay(db, log).accounts == db.accounts
  {
    if log != [] {
      ConnectionWritesOnly(db, log[..|log| - 1]);
    }
  }
}
