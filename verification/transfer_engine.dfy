/** `TransferTx` and `transferMoney`: one transfer row, two offsetting entries and two
    balance adjustments (lower account id first), all inside one transaction. */
module TransferEngine {
  import opened Results
  import Int64
  import opened Ledger
  import opened Tx

  datatype TransferTxParams = TransferTxParams(fromAccountId: int, toAccountId: int, amount: int)

  datatype TransferTxResult = TransferTxResult(
    transfer: Transfer,
    fromAccount: Account,
    toAccount: Account,
    fromEntry: Entry,
    toEntry: Entry)

  /** The three rows written before any balance moves. */
  datatype Recorded = Recorded(transfer: Transfer, fromEntry: Entry, toEntry: Entry)

  /** The parameters are Go int64 values. */
  predicate ValidParams(p: TransferTxParams) {
    Int64.InRange(p.fromAccountId) && Int64.InRange(p.toAccountId) && Int64.InRange(p.amount)
  }

  /** The amount written on the source side: Go's `-arg.Amount`. */
  function Debit(p: TransferTxParams): (d: int) {
    Int64.Neg(p.amount)
  }

  function Lower(p: TransferTxParams): (id: int) {
    if p.fromAccountId <= p.toAccountId then p.fromAccountId else p.toAccountId
  }

  function Higher(p: TransferTxParams): (id: int) {
    if p.fromAccountId <= p.toAccountId then p.toAccountId else p.fromAccountId
  }

  // ---------------------------------------------------------------------------
  // The call plan: what a transfer issues, in order, when nothing fails.
  // ---------------------------------------------------------------------------

  function RecordCalls(p: TransferTxParams): (calls: seq<Call>) {
    [ CreateTransferCall(p.fromAccountId, p.toAccountId, p.amount),
      CreateEntryCall(p.fromAccountId, Debit(p)),
      CreateEntryCall(p.toAccountId, p.amount) ]
  }

  /** The two adjustments, the one on the lower account id first. */
  function AdjustCalls(p: TransferTxParams): (calls: seq<Call>) {
    if p.fromAccountId <= p.toAccountId then
      [AddBalanceCall(p.fromAccountId, Debit(p)), AddBalanceCall(p.toAccountId, p.amount)]
    else
      [AddBalanceCall(p.toAccountId, p.amount), AddBalanceCall(p.fromAccountId, Debit(p))]
  }

  function ReadCalls(p: TransferTxParams): (calls: seq<Call>) {
    [GetAccountCall(p.fromAccountId), GetAccountCall(p.toAccountId)]
  }

  function PlannedCalls(p: TransferTxParams): (calls: seq<Call>) {
    RecordCalls(p) + AdjustCalls(p) + ReadCalls(p)
  }

  /** Session `t` continues session `s` with a prefix of `plan` and the same oracle. */
  ghost predicate FollowsPlan(s: Session, t: Session, plan: seq<Call>) {
    && t.faults == s.faults
    && |s.trace| <= |t.trace| <= |s.trace| + |plan|
    && t.trace == s.trace + plan[..|t.trace| - |s.trace|]
  }

  /** A fault injected at call `k` (not yet issued in `s`) means no call after `k` is issued,
      and a successful step issued no faulted call at all. */
  ghost predicate HaltsOnFault<T>(s: Session, out: Step<T>) {
    forall k :: k in s.faults && |s.trace| <= k ==>
      |out.session.trace| <= k + 1 && (out.result.Ok? ==> |out.session.trace| <= k)
  }

  /** No fault is injected into the next `n` calls of the session. */
  ghost predicate Clear(s: Session, n: nat) {
    forall k :: k in s.faults ==> k < |s.trace| || |s.trace| + n <= k
  }

  /** One adjustment finds its row and keeps the balance inside the bigint range. */
  ghost predicate FitsOne(accounts: map<int, Account>, id: int, delta: int) {
    id in accounts && Int64.InRange(accounts[id].balance + delta)
  }

  /** Both adjustments keep their balances inside the bigint range, so the database accepts them. */
  ghost predicate FitsPair(accounts: map<int, Account>, id1: int, amount1: int, id2: int, amount2: int) {
    && id1 in accounts
    && Int64.InRange(accounts[id1].balance + amount1)
    && id2 in accounts
    && Int64.InRange(Credit(accounts, id1, amount1)[id2].balance + amount2)
  }

  /** The error the call at log position `k` meets: the fault injected there, or else the
      error the database itself reports, `fallback`. */
  ghost function Met(faults: map<nat, DbError>, k: int, fallback: DbError): (e: DbError) {
    if k in faults then faults[k] else fallback
  }

  /** The error an unfaulted adjustment of row `id` meets: `NoRows` when the row is missing,
      otherwise the balance left the bigint range. */
  ghost function RowError(accounts: map<int, Account>, id: int): (e: DbError) {
    if id in accounts then NumericOutOfRange else NoRows
  }

  /** Session `t` is `s` after `m` unfaulted calls, so the faults ahead of `t` are those ahead of `s`. */
  lemma ClearAfter(s: Session, t: Session, m: nat, n: nat)
    requires t.faults == s.faults && |t.trace| == |s.trace| + m && Clear(s, m)
    ensures Clear(t, n) <==> Clear(s, m + n)
  {
  }

  lemma FollowsThen(s: Session, m: Session, t: Session, a: seq<Call>, b: seq<Call>)
    requires FollowsPlan(s, m, a) && m.trace == s.trace + a
    requires FollowsPlan(m, t, b)
    ensures FollowsPlan(s, t, a + b)
  {
    var n := |t.trace| - |m.trace|;
    assert (a + b)[..|a| + n] == a + b[..n];
  }

  lemma FollowsWiden(s: Session, m: Session, a: seq<Call>, b: seq<Call>)
    requires FollowsPlan(s, m, a)
    ensures FollowsPlan(s, m, a + b)
  {
    var n := |m.trace| - |s.trace|;
    assert (a + b)[..n] == a[..n];
  }

  lemma HaltsThen<T, U>(s: Session, first: Step<T>, out: Step<U>)
    requires HaltsOnFault(s, first) && first.result.Ok?
    requires first.session.faults == s.faults && |s.trace| <= |first.session.trace|
    requires HaltsOnFault(first.session, out)
    ensures HaltsOnFault(s, out)
  {
  }

  // ---------------------------------------------------------------------------
  // The stages of the transaction body.
  // ---------------------------------------------------------------------------

  /** Steps 1-3: the transfer header and the two offsetting entries. */
  function RecordTransfer(s: Session, p: TransferTxParams): (out: Step<Recorded>)
    ensures FollowsPlan(s, out.session, RecordCalls(p))
    ensures HaltsOnFault(s, out)
    ensures out.session.db.accounts == s.db.accounts
    ensures out.result.Ok? <==> Clear(s, 3)
    // the log ends with the first faulted insert
    ensures |out.session.trace| - |s.trace| == if !Clear(s, 1) then 1 else if !Clear(s, 2) then 2 else 3
    // and returns the fault injected into it
    ensures out.result.Err? ==>
              && |out.session.trace| - 1 in s.faults
              && out.result.error == s.faults[|out.session.trace| - 1]
    ensures out.result.Ok? ==>
              var r := out.result.value;
              && out.session.trace == s.trace + RecordCalls(p)
              && r.transfer == Transfer(|s.db.transfers| + 1, p.fromAccountId, p.toAccountId, p.amount)
              && r.fromEntry == Entry(|s.db.entries| + 1, p.fromAccountId, Debit(p))
              && r.toEntry == Entry(|s.db.entries| + 2, p.toAccountId, p.amount)
              && out.session.db.transfers == s.db.transfers + [r.transfer]
              && out.session.db.entries == s.db.entries + [r.fromEntry, r.toEntry]
  {
    var made := CreateTransfer(s, p.fromAccountId, p.toAccountId, p.amount);
    match made.result
    case Err(e) => Step(made.session, Err(e))
    case Ok(t) =>
      var debit := CreateEntry(made.session, p.fromAccountId, Debit(p));
      match debit.result
      case Err(e) => Step(debit.session, Err(e))
      case Ok(e1) =>
        var credit := CreateEntry(debit.session, p.toAccountId, p.amount);
        match credit.result
        case Err(e) => Step(credit.session, Err(e))
        case Ok(e2) =>
          assert s.db.entries + [e1] + [e2] == s.db.entries + [e1, e2];
          Step(credit.session, Ok(Recorded(t, e1, e2)))
  }

  /** `transferMoney`: two balance adjustments in argument order; each query's returned
      row id is passed back to the caller. */
  function TransferMoney(s: Session, id1: int, amount1: int, id2: int, amount2: int): (out: Step<(int, int)>)
    ensures FollowsPlan(s, out.session, [AddBalanceCall(id1, amount1), AddBalanceCall(id2, amount2)])
    ensures HaltsOnFault(s, out)
    ensures out.session.db.entries == s.db.entries && out.session.db.transfers == s.db.transfers
    ensures out.result.Ok? <==> Clear(s, 2) && FitsPair(s.db.accounts, id1, amount1, id2, amount2)
    // the first adjustment is always issued, the second only when the first succeeded
    ensures |out.session.trace| - |s.trace| == if Clear(s, 1) && FitsOne(s.db.accounts, id1, amount1) then 2 else 1
    // a failure returns the failing adjustment's own error
    ensures out.result.Err? ==>
              out.result.error ==
                Met(s.faults, |out.session.trace| - 1,
                    RowError(s.db.accounts, if |out.session.trace| == |s.trace| + 1 then id1 else id2))
    ensures out.result.Ok? ==>
              && out.session.trace == s.trace + [AddBalanceCall(id1, amount1), AddBalanceCall(id2, amount2)]
              && out.result.value == (id1, id2)
              && out.session.db.accounts == Credit(Credit(s.db.accounts, id1, amount1), id2, amount2)
  {
    var first := AddAccountBalance(s, id1, amount1);
    match first.result
    case Err(e) => Step(first.session, Err(e))
    case Ok(account1) =>
      var second := AddAccountBalance(first.session, id2, amount2);
      match second.result
      case Err(e) => Step(second.session, Err(e))
      case Ok(account2) => Step(second.session, Ok((account1, account2)))
  }

  /** Step 5: re-read two rows, the first id's row first. */
  function ReadBack(s: Session, id1: int, id2: int): (out: Step<(Account, Account)>)
    ensures FollowsPlan(s, out.session, [GetAccountCall(id1), GetAccountCall(id2)])
    ensures HaltsOnFault(s, out)
    ensures out.session.db == s.db
    ensures out.result.Ok? <==> Clear(s, 2) && id1 in s.db.accounts && id2 in s.db.accounts
    // the second read is issued only when the first found its row
    ensures |out.session.trace| - |s.trace| == if Clear(s, 1) && id1 in s.db.accounts then 2 else 1
    // a failure returns the failing read's own error
    ensures out.result.Err? ==> out.result.error == Met(s.faults, |out.session.trace| - 1, NoRows)
    ensures out.result.Err? && id1 in s.db.accounts && id2 in s.db.accounts ==>
              |out.session.trace| - 1 in s.faults
    ensures out.result.Ok? ==>
              && out.session.trace == s.trace + [GetAccountCall(id1), GetAccountCall(id2)]
              && out.result.value == (s.db.accounts[id1], s.db.accounts[id2])
  {
    var first := GetAccount(s, id1);
    match first.result
    case Err(e) => Step(first.session, Err(e))
    case Ok(a1) =>
      var second := GetAccount(first.session, id2);
      match second.result
      case Err(e) => Step(second.session, Err(e))
      case Ok(a2) => Step(second.session, Ok((a1, a2)))
  }

  /** The adjustments of `p`, in the order the transfer issues them, all fit. */
  ghost predicate Fits(accounts: map<int, Account>, p: TransferTxParams) {
    if p.fromAccountId <= p.toAccountId then
      FitsPair(accounts, p.fromAccountId, Debit(p), p.toAccountId, p.amount)
    else
      FitsPair(accounts, p.toAccountId, p.amount, p.fromAccountId, Debit(p))
  }

  /** The first adjustment of `p`, on the lower id, fits. */
  ghost predicate FirstFits(accounts: map<int, Account>, p: TransferTxParams) {
    if p.fromAccountId <= p.toAccountId then
      FitsOne(accounts, p.fromAccountId, Debit(p))
    else
      FitsOne(accounts, p.toAccountId, p.amount)
  }

  /** How many calls of the plan a transfer issues from session `s`: every call up to and
      including the first one that fails, or all seven. The inserts fail only by an injected
      fault; an adjustment also fails on a missing row or a balance leaving int64; the reads
      then find their rows, since both adjustments found them. */
  ghost function Reach(s: Session, p: TransferTxParams): (n: nat)
    ensures 1 <= n <= |PlannedCalls(p)|
  {
    if !Clear(s, 1) then 1
    else if !Clear(s, 2) then 2
    else if !Clear(s, 3) then 3
    else if !Clear(s, 4) || !FirstFits(s.db.accounts, p) then 4
    else if !Clear(s, 5) || !Fits(s.db.accounts, p) then 5
    else if !Clear(s, 6) then 6
    else 7
  }

  /** How many of the four adjustment and read calls are issued from session `s`. */
  ghost function SettleReach(s: Session, p: TransferTxParams): (n: nat)
    ensures 1 <= n <= 4
  {
    if !Clear(s, 1) || !FirstFits(s.db.accounts, p) then 1
    else if !Clear(s, 2) || !Fits(s.db.accounts, p) then 2
    else if !Clear(s, 3) then 3
    else 4
  }

  /** When an adjustment fails, the settling stage ends at that adjustment. */
  lemma SettleReachWithinMove(s: Session, p: TransferTxParams)
    requires !(Clear(s, 2) && Fits(s.db.accounts, p))
    ensures SettleReach(s, p) == if Clear(s, 1) && FirstFits(s.db.accounts, p) then 2 else 1
    ensures SettleReach(s, p) == 1 || SettleReach(s, p) == 2
  {
  }

  /** After both adjustments succeed, the settling stage goes on to one or both reads. */
  lemma SettleReachBeyondMove(s: Session, t: Session, p: TransferTxParams)
    requires t.faults == s.faults && |t.trace| == |s.trace| + 2
    requires Clear(s, 2) && Fits(s.db.accounts, p)
    ensures SettleReach(s, p) == if Clear(t, 1) then 4 else 3
  {
    ClearAfter(s, t, 2, 1);
  }

  /** When an insert fails, the transfer's reach ends at that insert. */
  lemma ReachWithinRecord(s: Session, p: TransferTxParams)
    requires !Clear(s, 3)
    ensures Reach(s, p) == if !Clear(s, 1) then 1 else if !Clear(s, 2) then 2 else 3
    ensures |s.trace| + Reach(s, p) - 1 in s.faults
    ensures FailureOf(s, p) == s.faults[|s.trace| + Reach(s, p) - 1]
  {
  }

  /** After three clean inserts, the transfer reaches three calls further than the settling
      stage does from the session the inserts leave behind. */
  lemma ReachBeyondRecord(s: Session, t: Session, p: TransferTxParams)
    requires t.faults == s.faults && |t.trace| == |s.trace| + 3 && Clear(s, 3)
    requires t.db.accounts == s.db.accounts
    ensures Reach(s, p) == 3 + SettleReach(t, p)
    ensures FailureOf(s, p) ==
              Met(s.faults, |t.trace| + SettleReach(t, p) - 1,
                  RowError(t.db.accounts, if SettleReach(t, p) == 1 then Lower(p) else Higher(p)))
  {
    ClearAfter(s, t, 3, 1);
    ClearAfter(s, t, 3, 2);
    ClearAfter(s, t, 3, 3);
  }

  /** The error a failing transfer from session `s` returns: that of the last call it
      issues (`Reach`), which is the fault injected there or, for an adjustment, the row or
      range error. Meaningful only when the transfer fails. */
  ghost function FailureOf(s: Session, p: TransferTxParams): (e: DbError) {
    Met(s.faults, |s.trace| + Reach(s, p) - 1,
        RowError(s.db.accounts, if Reach(s, p) == 4 then Lower(p) else Higher(p)))
  }

  /** A failed insert is the transfer's failure. */
  lemma RecordFailureIsTransferFailure(s: Session, p: TransferTxParams, recorded: Step<Recorded>)
    requires recorded.result.Err?
    requires |recorded.session.trace| - |s.trace| == if !Clear(s, 1) then 1 else if !Clear(s, 2) then 2 else 3
    requires |recorded.session.trace| - 1 in s.faults
    requires recorded.result.error == s.faults[|recorded.session.trace| - 1]
    requires !Clear(s, 3)
    ensures recorded.result.error == FailureOf(s, p)
  {
    ReachWithinRecord(s, p);
  }

  /** A failure of the settling stage, after three clean inserts, is the transfer's failure. */
  lemma SettleFailureIsTransferFailure(s: Session, t: Session, p: TransferTxParams, settled: Step<(Account, Account)>)
    requires t.faults == s.faults && |t.trace| == |s.trace| + 3 && Clear(s, 3)
    requires t.db.accounts == s.db.accounts
    requires settled.result.Err?
    requires |settled.session.trace| - |t.trace| == SettleReach(t, p)
    requires settled.result.error ==
               Met(t.faults, |settled.session.trace| - 1,
                   RowError(t.db.accounts, if SettleReach(t, p) == 1 then Lower(p) else Higher(p)))
    ensures settled.result.error == FailureOf(s, p)
  {
    ReachBeyondRecord(s, t, p);
  }

  /** The account map after both adjustments of a successful transfer. */
  function Moved(accounts: map<int, Account>, p: TransferTxParams): (r: map<int, Account>)
    requires p.fromAccountId in accounts && p.toAccountId in accounts
    ensures r.Keys == accounts.Keys
  {
    if p.fromAccountId <= p.toAccountId then
      Credit(Credit(accounts, p.fromAccountId, Debit(p)), p.toAccountId, p.amount)
    else
      Credit(Credit(accounts, p.toAccountId, p.amount), p.fromAccountId, Debit(p))
  }

  /** Steps 4-5: adjust the balances in id order, then read back (from, to). In the else
      branch the call swaps its arguments and the `id2, id1 :=` binding swaps them back. */
  function SettleBalances(s: Session, p: TransferTxParams): (out: Step<(Account, Account)>)
    ensures FollowsPlan(s, out.session, AdjustCalls(p) + ReadCalls(p))
    ensures HaltsOnFault(s, out)
    ensures out.session.db.entries == s.db.entries && out.session.db.transfers == s.db.transfers
    ensures out.result.Ok? ==>
              && out.session.trace == s.trace + AdjustCalls(p) + ReadCalls(p)
              && p.fromAccountId in s.db.accounts && p.toAccountId in s.db.accounts
              && out.session.db.accounts == Moved(s.db.accounts, p)
              && out.result.value == (out.session.db.accounts[p.fromAccountId], out.session.db.accounts[p.toAccountId])
    ensures out.result.Ok? <==> Clear(s, 4) && Fits(s.db.accounts, p)
    // the log ends with the first failing adjustment or read
    ensures |out.session.trace| - |s.trace| == SettleReach(s, p)
  {
    if p.fromAccountId <= p.toAccountId then
      var moved := TransferMoney(s, p.fromAccountId, Debit(p), p.toAccountId, p.amount);
      match moved.result
      case Err(e) =>
        FollowsWiden(s, moved.session, AdjustCalls(p), ReadCalls(p));
        SettleReachWithinMove(s, p);
        Step(moved.session, Err(e))
      case Ok(ids) =>
        var (id1, id2) := ids;
        var read := ReadBack(moved.session, id1, id2);
        SettleReachBeyondMove(s, moved.session, p);
        FollowsThen(s, moved.session, read.session, AdjustCalls(p), ReadCalls(p));
        HaltsThen(s, moved, read);
        read
    else
      var moved := TransferMoney(s, p.toAccountId, p.amount, p.fromAccountId, Debit(p));
      match moved.result
      case Err(e) =>
        FollowsWiden(s, moved.session, AdjustCalls(p), ReadCalls(p));
        SettleReachWithinMove(s, p);
        Step(moved.session, Err(e))
      case Ok(ids) =>
        var (id2, id1) := ids;
        var read := ReadBack(moved.session, id1, id2);
        SettleReachBeyondMove(s, moved.session, p);
        FollowsThen(s, moved.session, read.session, AdjustCalls(p), ReadCalls(p));
        HaltsThen(s, moved, read);
        read
  }

  /** What a successful transfer leaves behind, relative to the tables it started from. */
  ghost predicate Settled(before: Db, p: TransferTxParams, after: Db, r: TransferTxResult) {
    && p.fromAccountId in before.accounts && p.toAccountId in before.accounts
    && Fits(before.accounts, p)
    && r.transfer == Transfer(|before.transfers| + 1, p.fromAccountId, p.toAccountId, p.amount)
    && r.fromEntry == Entry(|before.entries| + 1, p.fromAccountId, Debit(p))
    && r.toEntry == Entry(|before.entries| + 2, p.toAccountId, p.amount)
    && after.transfers == before.transfers + [r.transfer]
    && after.entries == before.entries + [r.fromEntry, r.toEntry]
    && after.accounts == Moved(before.accounts, p)
    && r.fromAccount == after.accounts[p.fromAccountId]
    && r.toAccount == after.accounts[p.toAccountId]
  }

  /** The body `TransferTx` hands to `execTx`. */
  function TransferWork(s: Session, p: TransferTxParams): (out: Step<TransferTxResult>)
    ensures FollowsPlan(s, out.session, PlannedCalls(p))
    ensures HaltsOnFault(s, out)
    ensures out.result.Ok? ==>
              && out.session.trace == s.trace + PlannedCalls(p)
              && Settled(s.db, p, out.session.db, out.result.value)
    ensures out.result.Ok? <==> Clear(s, |PlannedCalls(p)|) && Fits(s.db.accounts, p)
    // the log ends with the first failing call, natural or injected
    ensures |out.session.trace| == |s.trace| + Reach(s, p)
  {
    var recorded := RecordTransfer(s, p);
    match recorded.result
    case Err(e) =>
      FollowsWiden(s, recorded.session, RecordCalls(p), AdjustCalls(p) + ReadCalls(p));
      assert RecordCalls(p) + (AdjustCalls(p) + ReadCalls(p)) == PlannedCalls(p);
      ReachWithinRecord(s, p);
      Step(recorded.session, Err(e))
    case Ok(rec) =>
      var settled := SettleBalances(recorded.session, p);
      ReachBeyondRecord(s, recorded.session, p);
      FollowsThen(s, recorded.session, settled.session, RecordCalls(p), AdjustCalls(p) + ReadCalls(p));
      assert RecordCalls(p) + (AdjustCalls(p) + ReadCalls(p)) == PlannedCalls(p);
      HaltsThen(s, recorded, settled);
      match settled.result
      case Err(e) => Step(settled.session, Err(e))
      case Ok(accounts) =>
        var (fromAccount, toAccount) := accounts;
        Step(settled.session, Ok(TransferTxResult(rec.transfer, fromAccount, toAccount, rec.fromEntry, rec.toEntry)))
  }

  /** A failing settling stage returns the error of the last call it issued, unchanged: the
      injected fault, or the failing adjustment's row or range error. The reads fail only by
      injected faults, since both adjustments found their rows. */
  lemma SettleFailure(s: Session, p: TransferTxParams)
    ensures var out := SettleBalances(s, p);
            out.result.Err? ==>
              out.result.error ==
                Met(s.faults, |out.session.trace| - 1,
                    RowError(s.db.accounts, if SettleReach(s, p) == 1 then Lower(p) else Higher(p)))
  {
    var (id1, amount1, id2, amount2) :=
      if p.fromAccountId <= p.toAccountId then (p.fromAccountId, Debit(p), p.toAccountId, p.amount)
      else (p.toAccountId, p.amount, p.fromAccountId, Debit(p));
    var moved := TransferMoney(s, id1, amount1, id2, amount2);
    if moved.result.Err? {
      SettleReachWithinMove(s, p);
    } else {
      SettleReachBeyondMove(s, moved.session, p);
    }
  }

  /** A failing transfer body returns the error of the last call it issued, unchanged. */
  lemma WorkFailure(s: Session, p: TransferTxParams)
    ensures TransferWork(s, p).result.Err? ==> TransferWork(s, p).result.error == FailureOf(s, p)
  {
    var recorded := RecordTransfer(s, p);
    if recorded.result.Err? {
      assert TransferWork(s, p) == Step(recorded.session, Err(recorded.result.error));
      RecordFailureIsTransferFailure(s, p, recorded);
    } else {
      var settled := SettleBalances(recorded.session, p);
      if settled.result.Err? {
        assert TransferWork(s, p) == Step(settled.session, Err(settled.result.error));
        SettleFailure(recorded.session, p);
        SettleFailureIsTransferFailure(s, recorded.session, p, settled);
      }
    }
  }

  /** `TransferTx`: the transfer body run by `execTx`. */
  function TransferTx(db: Db, tx: TxFaults, faults: map<nat, DbError>, p: TransferTxParams): (out: TxOutcome<TransferTxResult>)
    ensures out.result.Err? ==> out.db == db
    ensures tx.begin.Some? ==> out.trace == []
    ensures out.trace <= PlannedCalls(p)
    ensures out.result.Ok? ==> out.trace == PlannedCalls(p) && Settled(db, p, out.db, out.result.value)
    // it succeeds exactly when no control statement and none of the seven calls fails
    ensures out.result.Ok? <==>
              && tx.begin.None? && tx.commit.None?
              && (forall k :: k in faults ==> |PlannedCalls(p)| <= k)
              && Fits(db.accounts, p)
    // once begun, the transfer issues every call up to and including the first that fails
    ensures tx.begin.None? ==> |out.trace| == Reach(Opened(db, faults), p)
  {
    ExecTx(db, tx, faults, s => TransferWork(s, p))
  }

  /** A failed transfer body reaches the caller as its last call's own error, joined by the
      rollback's error when the rollback fails too; after a complete body, a failed commit is
      the call's error. */
  lemma TransferTxFailure(db: Db, tx: TxFaults, faults: map<nat, DbError>, p: TransferTxParams)
    ensures var out := TransferTx(db, tx, faults, p);
            tx.begin.None? && !(Clear(Opened(db, faults), |PlannedCalls(p)|) && Fits(db.accounts, p)) ==>
              var cause := FailureOf(Opened(db, faults), p);
              out.result == if tx.rollback.Some? then Err(WithRollback(cause, tx.rollback.value)) else Err(Cause(cause))
    ensures var out := TransferTx(db, tx, faults, p);
            tx.begin.None? && Clear(Opened(db, faults), |PlannedCalls(p)|) && Fits(db.accounts, p) && tx.commit.Some? ==>
              out.result == Err(Cause(tx.commit.value))
  {
    WorkFailure(Opened(db, faults), p);
  }
}
