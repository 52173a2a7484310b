/** Properties of the transfer transaction that relate several calls or quantify over all
    inputs: lock ordering, conservation, the self-transfer path, fault handling and the
    balance-equals-entries invariant. */
module TransferLaws {
  import opened Results
  import Int64
  import opened Ledger
  import opened Tx
  import opened TransferEngine

  // ---------------------------------------------------------------------------
  // Lock ordering
  // ---------------------------------------------------------------------------

  /** The `(id, delta)` of every balance adjustment in a call log, in issue order. */
  function Adjustments(trace: seq<Call>): (adjusted: seq<(int, int)>)
  {
    if trace == [] then []
    else
      var last := trace[|trace| - 1];
      Adjustments(trace[..|trace| - 1]) + (if last.AddBalanceCall? then [(last.id, last.delta)] else [])
  }

  lemma {:induction false} AdjustmentsAppend(a: seq<Call>, b: seq<Call>)
    ensures Adjustments(a + b) == Adjustments(a) + Adjustments(b)
    decreases |b|
  {
    if b == [] {
      assert a + b == a;
    } else {
      var b' := b[..|b| - 1];
      assert (a + b)[..|a + b| - 1] == a + b';
      AdjustmentsAppend(a, b');
    }
  }

  /** The adjustments of a prefix of a log are a prefix of the log's adjustments. */
  lemma {:induction false} AdjustmentsOfPrefix(x: seq<Call>, n: nat)
    requires n <= |x|
    ensures Adjustments(x[..n]) <= Adjustments(x)
    decreases |x| - n
  {
    if n < |x| {
      AdjustmentsOfPrefix(x, n + 1);
      assert x[..n + 1][..n] == x[..n];
    } else {
      assert x[..n] == x;
    }
  }

  lemma AdjustmentsOfOne(c: Call)
    ensures Adjustments([c]) == if c.AddBalanceCall? then [(c.id, c.delta)] else []
  {
    assert [c][..0] == [];
  }

  lemma AdjustmentsOfTwo(c: Call, d: Call)
    ensures Adjustments([c, d]) == Adjustments([c]) + Adjustments([d])
  {
    assert [c, d] == [c] + [d];
    AdjustmentsAppend([c], [d]);
  }

  /** A log without balance adjustments contributes none. */
  lemma {:induction false} AdjustmentsNone(trace: seq<Call>)
    requires forall i :: 0 <= i < |trace| ==> !trace[i].AddBalanceCall?
    ensures Adjustments(trace) == []
    decreases |trace|
  {
    if trace != [] {
      var init := trace[..|trace| - 1];
      assert forall i :: 0 <= i < |init| ==> init[i] == trace[i];
      AdjustmentsNone(init);
    }
  }

  lemma PlannedAdjustments(p: TransferTxParams)
    ensures Adjustments(PlannedCalls(p)) ==
              if p.fromAccountId <= p.toAccountId then [(p.fromAccountId, Debit(p)), (p.toAccountId, p.amount)]
              else [(p.toAccountId, p.amount), (p.fromAccountId, Debit(p))]
  {
    var r, a, q := RecordCalls(p), AdjustCalls(p), ReadCalls(p);
    AdjustmentsAppend(r, a);
    AdjustmentsAppend(r + a, q);
    AdjustmentsNone(r);
    AdjustmentsNone(q);
    AdjustmentsOfTwo(a[0], a[1]);
    assert a == [a[0], a[1]];
    AdjustmentsOfOne(a[0]);
    AdjustmentsOfOne(a[1]);
  }

  /** The ordering facts for any prefix of the call plan. */
  lemma PlanPrefixOrdering(p: TransferTxParams, trace: seq<Call>)
    requires trace <= PlannedCalls(p)
    ensures var adj := Adjustments(trace);
            && |adj| <= 2
            && (forall i :: 0 <= i < |adj| ==> adj[i].0 == [Lower(p), Higher(p)][i])
            && (|adj| > 0 && p.fromAccountId <= p.toAccountId ==> adj[0] == (p.fromAccountId, Debit(p)))
            && (|adj| > 0 && p.fromAccountId > p.toAccountId ==> adj[0] == (p.toAccountId, p.amount))
            && (trace == PlannedCalls(p) ==> |adj| == 2)
  {
    var plan := PlannedCalls(p);
    assert trace == plan[..|trace|];
    AdjustmentsOfPrefix(plan, |trace|);
    PlannedAdjustments(p);
    var adj := Adjustments(trace);
    var all := Adjustments(plan);
    assert adj <= all && |all| == 2;
    forall i | 0 <= i < |adj|
      ensures adj[i].0 == [Lower(p), Higher(p)][i]
    {
      assert adj[i] == all[i];
    }
  }

  /** Whatever fails, every transfer adjusts the lower account id before the higher one, and
      the first adjustment is the source's debit exactly when `from <= to`. A successful
      transfer makes both adjustments. */
  lemma LowerIdAdjustedFirst(db: Db, tx: TxFaults, faults: map<nat, DbError>, p: TransferTxParams)
    ensures var out := TransferTx(db, tx, faults, p);
            var adj := Adjustments(out.trace);
            && |adj| <= 2
            && (forall i :: 0 <= i < |adj| ==> adj[i].0 == [Lower(p), Higher(p)][i])
            && (|adj| > 0 && p.fromAccountId <= p.toAccountId ==> adj[0] == (p.fromAccountId, Debit(p)))
            && (|adj| > 0 && p.fromAccountId > p.toAccountId ==> adj[0] == (p.toAccountId, p.amount))
            && (out.result.Ok? ==> |adj| == 2)
  {
    var out := TransferTx(db, tx, faults, p);
    PlanPrefixOrdering(p, out.trace);
  }

  // ---------------------------------------------------------------------------
  // Balances
  // ---------------------------------------------------------------------------

  /** Every account's balance moves by its net share of the transfer, in either branch,
      including the self-transfer where both shares land on one row. */
  lemma MovedDelta(accounts: map<int, Account>, p: TransferTxParams, id: int)
    requires p.fromAccountId in accounts && p.toAccountId in accounts && id in accounts
    ensures Moved(accounts, p)[id] == accounts[id].(balance := Moved(accounts, p)[id].balance)
    ensures Moved(accounts, p)[id].balance ==
              accounts[id].balance
              + (if id == p.fromAccountId then Debit(p) else 0)
              + (if id == p.toAccountId then p.amount else 0)
  {
  }

  /** A successful transfer between two accounts debits the source by `amount`, credits the
      destination by `amount`, keeps their sum, and touches no other account. */
  lemma TransferConservesMoney(db: Db, tx: TxFaults, faults: map<nat, DbError>, p: TransferTxParams)
    requires Int64.InRange(p.amount) && p.amount != Int64.Min
    requires p.fromAccountId != p.toAccountId
    ensures var out := TransferTx(db, tx, faults, p);
            var from, to := p.fromAccountId, p.toAccountId;
            out.result.Ok? ==>
              && from in db.accounts && to in db.accounts
              && out.db.accounts.Keys == db.accounts.Keys
              && out.db.accounts[from] == db.accounts[from].(balance := db.accounts[from].balance - p.amount)
              && out.db.accounts[to] == db.accounts[to].(balance := db.accounts[to].balance + p.amount)
              && out.db.accounts[from].balance + out.db.accounts[to].balance
                 == db.accounts[from].balance + db.accounts[to].balance
              && (forall id :: id in db.accounts && id != from && id != to ==> out.db.accounts[id] == db.accounts[id])
  {
    var out := TransferTx(db, tx, faults, p);
    if out.result.Ok? {
      MovedDelta(db.accounts, p, p.fromAccountId);
      MovedDelta(db.accounts, p, p.toAccountId);
      forall id | id in db.accounts && id != p.fromAccountId && id != p.toAccountId
        ensures out.db.accounts[id] == db.accounts[id]
      {
        MovedDelta(db.accounts, p, id);
      }
    }
  }

  /** The two entries of a successful transfer sit on the source and the destination and
      cancel out, except for the one amount whose Go negation overflows. */
  lemma EntriesCancel(db: Db, tx: TxFaults, faults: map<nat, DbError>, p: TransferTxParams)
    requires Int64.InRange(p.amount)
    ensures var out := TransferTx(db, tx, faults, p);
            out.result.Ok? ==>
              var r := out.result.value;
              && r.fromEntry.accountId == p.fromAccountId && r.toEntry.accountId == p.toAccountId
              && r.toEntry.amount == p.amount
              && (r.fromEntry.amount + r.toEntry.amount == 0 <==> p.amount != Int64.Min)
              && out.db.entries[|out.db.entries| - 2..] == [r.fromEntry, r.toEntry]
  {
  }

  /** Debiting and then crediting one account by the same amount restores it. */
  lemma SelfMoveIsIdentity(accounts: map<int, Account>, p: TransferTxParams)
    requires p.fromAccountId == p.toAccountId && p.fromAccountId in accounts
    requires Int64.InRange(p.amount) && p.amount != Int64.Min
    ensures Moved(accounts, p) == accounts
  {
    var moved := Moved(accounts, p);
    forall k | k in accounts
      ensures moved[k] == accounts[k]
    {
      MovedDelta(accounts, p, k);
    }
  }

  /** A transfer from an account to itself is not refused: it takes the `<=` branch, debits
      and then credits the same row, records one transfer and two entries, and leaves every
      balance as it was. */
  lemma SelfTransferKeepsBalance(db: Db, tx: TxFaults, faults: map<nat, DbError>, p: TransferTxParams)
    requires p.fromAccountId == p.toAccountId
    requires Int64.InRange(p.amount) && p.amount != Int64.Min
    ensures var out := TransferTx(db, tx, faults, p);
            var id := p.fromAccountId;
            out.result.Ok? ==>
              && out.trace[3..5] == [AddBalanceCall(id, -p.amount), AddBalanceCall(id, p.amount)]
              && out.db.accounts == db.accounts
              && out.db.transfers == db.transfers + [Transfer(|db.transfers| + 1, id, id, p.amount)]
              && out.db.entries == db.entries + [Entry(|db.entries| + 1, id, -p.amount), Entry(|db.entries| + 2, id, p.amount)]
              && out.result.value.fromAccount == db.accounts[id] == out.result.value.toAccount
  {
    var out := TransferTx(db, tx, faults, p);
    if out.result.Ok? {
      assert Settled(db, p, out.db, out.result.value);
      assert Debit(p) == -p.amount;
      SelfMoveIsIdentity(db.accounts, p);
      assert out.trace[3..5] == AdjustCalls(p);
    }
  }

  /** A self-transfer on an existing account succeeds when nothing fails and the debit
      does not push the balance below the int64 range. */
  lemma SelfTransferNotRejected(db: Db, p: TransferTxParams)
    requires p.fromAccountId == p.toAccountId && p.fromAccountId in db.accounts
    requires Int64.InRange(p.amount) && p.amount != Int64.Min
    requires Int64.InRange(db.accounts[p.fromAccountId].balance)
    requires Int64.InRange(db.accounts[p.fromAccountId].balance - p.amount)
    ensures TransferTx(db, NoTxFaults, map[], p).result.Ok?
  {
    var id := p.fromAccountId;
    assert Debit(p) == -p.amount;
    assert Credit(db.accounts, id, -p.amount)[id].balance + p.amount == db.accounts[id].balance;
    assert Fits(db.accounts, p);
  }

  /** The returned accounts are the post-update rows of the source and the destination, in
      both branches: the swap in the else branch is undone before the reads. */
  lemma ResultAccountsMatchArguments(db: Db, tx: TxFaults, faults: map<nat, DbError>, p: TransferTxParams)
    requires WellKeyed(db)
    ensures var out := TransferTx(db, tx, faults, p);
            out.result.Ok? ==>
              && out.result.value.fromAccount == out.db.accounts[p.fromAccountId]
              && out.result.value.toAccount == out.db.accounts[p.toAccountId]
              && out.result.value.fromAccount.id == p.fromAccountId
              && out.result.value.toAccount.id == p.toAccountId
              && out.trace[5..] == [GetAccountCall(p.fromAccountId), GetAccountCall(p.toAccountId)]
  {
    var out := TransferTx(db, tx, faults, p);
    if out.result.Ok? {
      MovedDelta(db.accounts, p, p.fromAccountId);
      MovedDelta(db.accounts, p, p.toAccountId);
    }
  }

  // ---------------------------------------------------------------------------
  // Failures
  // ---------------------------------------------------------------------------

  /** A fault at call `k` stops the transaction there: no later call is issued, the
      transfer fails when `k` is one of its seven calls, and the tables are unchanged. */
  lemma FaultStopsLaterCalls(db: Db, tx: TxFaults, faults: map<nat, DbError>, p: TransferTxParams, k: nat)
    requires k in faults
    ensures var out := TransferTx(db, tx, faults, p);
            && |out.trace| <= k + 1
            && (k < |PlannedCalls(p)| ==> out.result.Err? && out.db == db)
  {
    var w := TransferWork(Opened(db, faults), p);
    assert HaltsOnFault(Opened(db, faults), w);
  }

  /** When BEGIN fails no query is issued; when rollback fails the error names both causes. */
  lemma TxControlFailures(db: Db, tx: TxFaults, faults: map<nat, DbError>, p: TransferTxParams)
    ensures var out := TransferTx(db, tx, faults, p);
            && (tx.begin.Some? ==> out.trace == [] && out.result == Err(Cause(tx.begin.value)))
            && (tx.begin.None? && tx.rollback.Some? && out.result.Err? && out.trace != [] && tx.commit.None? ==>
                  out.result.error.WithRollback? && out.result.error.rollback == tx.rollback.value)
            && (tx.begin.None? && tx.commit.Some? ==> out.result.Err?)
  {
    var w := TransferWork(Opened(db, faults), p);
  }

  // ---------------------------------------------------------------------------
  // The ledger invariant
  // ---------------------------------------------------------------------------

  /** Every transfer, successful or not, keeps each balance equal to the sum of its entries:
      the entries and the adjustments carry the same two amounts. */
  lemma TransferPreservesConsistency(db: Db, tx: TxFaults, faults: map<nat, DbError>, p: TransferTxParams)
    requires Consistent(db)
    ensures Consistent(TransferTx(db, tx, faults, p).db)
  {
    var out := TransferTx(db, tx, faults, p);
    if out.result.Ok? {
      var r := out.result.value;
      assert out.db.entries == db.entries + [r.fromEntry] + [r.toEntry];
      forall id | id in out.db.accounts
        ensures out.db.accounts[id].balance == Net(out.db.entries, id)
      {
        NetAppend(db.entries, r.fromEntry, id);
        NetAppend(db.entries + [r.fromEntry], r.toEntry, id);
        MovedDelta(db.accounts, p, id);
      }
    }
  }

  // ---------------------------------------------------------------------------
  // Concrete scenarios
  // ---------------------------------------------------------------------------

  function TwoAccounts(): (db: Db) {
    Db(map[1 := Account(1, "alice", 1000, "USD"), 2 := Account(2, "bob", 500, "USD")], [], [])
  }

  /** Transferring 300 from account 1 (1000) to account 2 (500). */
  lemma ScenarioOneToTwo()
    ensures var out := TransferTx(TwoAccounts(), NoTxFaults, map[], TransferTxParams(1, 2, 300));
            && out.result.Ok?
            && out.result.value.transfer == Transfer(1, 1, 2, 300)
            && out.db.accounts[1].balance == 700 && out.db.accounts[2].balance == 800
            && out.db.entries == [Entry(1, 1, -300), Entry(2, 2, 300)]
  {
    var p := TransferTxParams(1, 2, 300);
    var db := TwoAccounts();
    assert Debit(p) == -300;
    assert Fits(db.accounts, p);
    var out := TransferTx(db, NoTxFaults, map[], p);
    assert out.result.Ok?;
    assert Settled(db, p, out.db, out.result.value);
    MovedDelta(db.accounts, p, 1);
    MovedDelta(db.accounts, p, 2);
  }

  /** Transferring 10000 from account 2 back to account 1 when the database refuses the
      overdraft of account 2 (its fifth call, the second adjustment): nothing changes. */
  lemma ScenarioOverdraftRefused()
    ensures var out := TransferTx(TwoAccounts(), NoTxFaults, map[4 := CheckViolation], TransferTxParams(2, 1, 10000));
            && out.result == Err(Cause(CheckViolation))
            && out.db == TwoAccounts()
            && out.trace == PlannedCalls(TransferTxParams(2, 1, 10000))[..5]
            && out.trace[3] == AddBalanceCall(1, 10000)
  {
    var p := TransferTxParams(2, 1, 10000);
    var faults := map[4 := CheckViolation];
    FaultStopsLaterCalls(TwoAccounts(), NoTxFaults, faults, p, 4);
    var s := Opened(TwoAccounts(), faults);
    var rec := RecordTransfer(s, p);
    assert rec.result.Ok?;
    var first := AddAccountBalance(rec.session, 1, 10000);
    assert first.result.Ok?;
    var second := AddAccountBalance(first.session, 2, Debit(p));
    assert second.result == Err(CheckViolation);
  }

  /** Transferring 300 from account 1 to account 2 whose balance is already the int64
      maximum: the credit, the fifth call, leaves the bigint range; no read follows and
      nothing changes. */
  lemma ScenarioCreditOverflowStops()
    ensures var db := Db(map[1 := Account(1, "alice", 1000, "USD"), 2 := Account(2, "bob", Int64.Max, "USD")], [], []);
            var out := TransferTx(db, NoTxFaults, map[], TransferTxParams(1, 2, 300));
            && out.result == Err(Cause(NumericOutOfRange))
            && out.db == db
            && out.trace == PlannedCalls(TransferTxParams(1, 2, 300))[..5]
  {
    var db := Db(map[1 := Account(1, "alice", 1000, "USD"), 2 := Account(2, "bob", Int64.Max, "USD")], [], []);
    var p := TransferTxParams(1, 2, 300);
    var s := Opened(db, map[]);
    assert Debit(p) == -300;
    assert FirstFits(db.accounts, p) && !Fits(db.accounts, p);
    assert Reach(s, p) == 5;
    var rec := RecordTransfer(s, p);
    assert rec.result.Ok?;
    var first := AddAccountBalance(rec.session, 1, Debit(p));
    assert first.result.Ok?;
    var second := AddAccountBalance(first.session, 2, p.amount);
    assert second.result == Err(NumericOutOfRange);
  }

  /** The one amount the engine mishandles: Go's `-amount` overflows for the int64 minimum,
      so both entries and both adjustments carry the minimum and money is not conserved: both
      balances fall by 2^63. */
  lemma MinAmountBreaksConservation()
    ensures var db := Db(map[1 := Account(1, "alice", 0, "USD"), 2 := Account(2, "bob", 0, "USD")], [], []);
            var out := TransferTx(db, NoTxFaults, map[], TransferTxParams(1, 2, Int64.Min));
            && out.result.Ok?
            && out.db.accounts[1].balance == Int64.Min && out.db.accounts[2].balance == Int64.Min
  {
    var db := Db(map[1 := Account(1, "alice", 0, "USD"), 2 := Account(2, "bob", 0, "USD")], [], []);
    var p := TransferTxParams(1, 2, Int64.Min);
    assert Fits(db.accounts, p);
    MovedDelta(db.accounts, p, 1);
    MovedDelta(db.accounts, p, 2);
  }
}
