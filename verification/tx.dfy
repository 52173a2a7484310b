/** `execTx`: runs a unit of work inside one database transaction, committing it when the
    work succeeds and rolling it back otherwise. */
module Tx {
  import opened Results
  import opened Ledger

  /** Failures of the transaction control statements themselves. */
  datatype TxFaults = TxFaults(begin: Option<DbError>, commit: Option<DbError>, rollback: Option<DbError>)

  const NoTxFaults: TxFaults := TxFaults(None, None, None)

  /** The error `execTx` returns: the original cause, or (when rollback also failed) the
      combined "tx err / rb err" error carrying both. */
  datatype TxError = Cause(error: DbError) | WithRollback(cause: DbError, rollback: DbError)

  /** The committed tables after the call, the calls the work issued, and the result. */
  datatype TxOutcome<T> = TxOutcome(db: Db, trace: seq<Call>, result: Result<T, TxError>)

  /** The session the work receives: the committed tables, no calls yet, the oracle. */
  function Opened(db: Db, faults: map<nat, DbError>): (s: Session) {
    Session(db, [], faults)
  }

  function ExecTx<T>(db: Db, tx: TxFaults, faults: map<nat, DbError>, work: Session -> Step<T>): (out: TxOutcome<T>)
    // all-or-nothing: a failed call leaves the committed tables as they were
    ensures out.result.Err? ==> out.db == db
    // a failed BEGIN means the work never runs
    ensures tx.begin.Some? ==> out.trace == [] && out.result == Err(Cause(tx.begin.value))
    ensures tx.begin.None? ==> out.trace == work(Opened(db, faults)).session.trace
    // success needs the work and the commit to succeed; the work's effects then become the tables
    ensures out.result.Ok? <==>
              tx.begin.None? && work(Opened(db, faults)).result.Ok? && tx.commit.None?
    ensures out.result.Ok? ==>
              && out.result.value == work(Opened(db, faults)).result.value
              && out.db == work(Opened(db, faults)).session.db
    // a failed work is rolled back; a failed rollback reports both errors
    ensures tx.begin.None? && work(Opened(db, faults)).result.Err? ==>
              var cause := work(Opened(db, faults)).result.error;
              out.result == if tx.rollback.Some? then Err(WithRollback(cause, tx.rollback.value)) else Err(Cause(cause))
    // the commit's own failure is the call's result
    ensures tx.begin.None? && work(Opened(db, faults)).result.Ok? && tx.commit.Some? ==>
              out.result == Err(Cause(tx.commit.value))
  {
    match tx.begin
    case Some(e) => TxOutcome(db, [], Err(Cause(e)))
    case None =>
      var done := work(Opened(db, faults));
      match done.result
      case Err(cause) =>
        (match tx.rollback
         case Some(rb) => TxOutcome(db, done.session.trace, Err(WithRollback(cause, rb)))
         case None => TxOutcome(db, done.session.trace, Err(Cause(cause))))
      case Ok(v) =>
        match tx.commit
        case Some(e) => TxOutcome(db, done.session.trace, Err(Cause(e)))
        case None => TxOutcome(done.session.db, done.session.trace, Ok(v))
  }
}
