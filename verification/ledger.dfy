/** The ledger store: account, entry and transfer rows, and the query primitives the
    transfer transaction issues. Every primitive runs inside a session that records the
    calls it receives and consults an injected fault oracle. */
module Ledger {
  import opened Results
  import Int64

  datatype Account = Account(id: int, owner: string, balance: int, currency: string)
  datatype Entry = Entry(id: int, accountId: int, amount: int)
  datatype Transfer = Transfer(id: int, fromAccountId: int, toAccountId: int, amount: int)

  /** Errors the database driver can report. `NoRows` is `sql.ErrNoRows`; the constraint
      kinds are the PostgreSQL error-code names the handlers inspect. */
  datatype DbError =
    | NoRows
    | ConnDone
    | ForeignKeyViolation
    | UniqueViolation
    | CheckViolation
    | NumericOutOfRange
    | OtherDbError

  /** The committed contents of the three tables. Row ids of entries and transfers are
      their position plus one, as a serial column assigns them. */
  datatype Db = Db(accounts: map<int, Account>, entries: seq<Entry>, transfers: seq<Transfer>)

  /** Parameter records of the generated queries. */
  datatype CreateAccountParams = CreateAccountParams(owner: string, balance: int, currency: string)
  datatype ListAccountsParams = ListAccountsParams(owner: string, limit: int, offset: int)
  datatype UpdateBalanceParams = UpdateBalanceParams(id: int, balance: int)

  /** Every account row is stored under its own id. */
  ghost predicate WellKeyed(db: Db) {
    forall id :: id in db.accounts ==> db.accounts[id].id == id
  }

  /** A query issued inside a transaction, as a call-order log records it. */
  datatype Call =
    | CreateTransferCall(from: int, to: int, amount: int)
    | CreateEntryCall(accountId: int, amount: int)
    | AddBalanceCall(id: int, delta: int)
    | GetAccountCall(id: int)

  /** A transaction in progress: its view of the tables, the calls issued so far, and the
      oracle naming the call indices (0-based) that fail and with which error. */
  datatype Session = Session(db: Db, trace: seq<Call>, faults: map<nat, DbError>)

  /** A query's effect on the session together with its Go `(value, error)` result. */
  datatype Step<T> = Step(session: Session, result: Result<T, DbError>)

  /** The error the oracle injects into the next call of the session, if any. */
  function NextFault(s: Session): (e: Option<DbError>) {
    if |s.trace| in s.faults then Some(s.faults[|s.trace|]) else None
  }

  function Issue(s: Session, c: Call): (t: Session) {
    s.(trace := s.trace + [c])
  }

  /** The accounts after `delta` is added to the balance of row `id`. */
  function Credit(accounts: map<int, Account>, id: int, delta: int): (r: map<int, Account>)
    requires id in accounts
    ensures r.Keys == accounts.Keys
    ensures r[id].balance == accounts[id].balance + delta
    ensures r[id] == accounts[id].(balance := r[id].balance)
    ensures forall other :: other in accounts && other != id ==> r[other] == accounts[other]
  {
    accounts[id := accounts[id].(balance := accounts[id].balance + delta)]
  }

  /** Inserts a transfer header row. */
  function CreateTransfer(s: Session, from: int, to: int, amount: int): (out: Step<Transfer>)
    ensures out.session.trace == s.trace + [CreateTransferCall(from, to, amount)]
    ensures out.session.faults == s.faults
    ensures out.result.Err? <==> NextFault(s).Some?
    ensures NextFault(s).Some? ==> out.result == Err(NextFault(s).value)
    ensures out.result.Err? ==> out.session.db == s.db
    ensures out.result.Ok? ==>
              && out.result.value == Transfer(|s.db.transfers| + 1, from, to, amount)
              && out.session.db == s.db.(transfers := s.db.transfers + [out.result.value])
  {
    var s' := Issue(s, CreateTransferCall(from, to, amount));
    match NextFault(s)
    case Some(e) => Step(s', Err(e))
    case None =>
      var t := Transfer(|s.db.transfers| + 1, from, to, amount);
      Step(s'.(db := s.db.(transfers := s.db.transfers + [t])), Ok(t))
  }

  /** Inserts one ledger line; it does not touch any balance. */
  function CreateEntry(s: Session, accountId: int, amount: int): (out: Step<Entry>)
    ensures out.session.trace == s.trace + [CreateEntryCall(accountId, amount)]
    ensures out.session.faults == s.faults
    ensures out.result.Err? <==> NextFault(s).Some?
    ensures NextFault(s).Some? ==> out.result == Err(NextFault(s).value)
    ensures out.result.Err? ==> out.session.db == s.db
    ensures out.result.Ok? ==>
              && out.result.value == Entry(|s.db.entries| + 1, accountId, amount)
              && out.session.db == s.db.(entries := s.db.entries + [out.result.value])
  {
    var s' := Issue(s, CreateEntryCall(accountId, amount));
    match NextFault(s)
    case Some(e) => Step(s', Err(e))
    case None =>
      var e := Entry(|s.db.entries| + 1, accountId, amount);
      Step(s'.(db := s.db.(entries := s.db.entries + [e])), Ok(e))
  }

  /** Adds `delta` to the balance of row `id` in one statement and returns the row's id.
      A missing row yields `NoRows`; a balance leaving the bigint range is refused. */
  function AddAccountBalance(s: Session, id: int, delta: int): (out: Step<int>)
    ensures out.session.trace == s.trace + [AddBalanceCall(id, delta)]
    ensures out.session.faults == s.faults
    ensures out.result.Ok? <==>
              && NextFault(s).None?
              && id in s.db.accounts
              && Int64.InRange(s.db.accounts[id].balance + delta)
    ensures out.result.Err? ==> out.session.db == s.db
    ensures NextFault(s).Some? ==> out.result == Err(NextFault(s).value)
    ensures NextFault(s).None? && id !in s.db.accounts ==> out.result == Err(NoRows)
    ensures NextFault(s).None? && id in s.db.accounts && !Int64.InRange(s.db.accounts[id].balance + delta) ==>
              out.result == Err(NumericOutOfRange)
    ensures out.result.Ok? ==>
              && out.result.value == id
              && out.session.db == s.db.(accounts := Credit(s.db.accounts, id, delta))
  {
    var s' := Issue(s, AddBalanceCall(id, delta));
    match NextFault(s)
    case Some(e) => Step(s', Err(e))
    case None =>
      if id !in s.db.accounts then Step(s', Err(NoRows))
      else if !Int64.InRange(s.db.accounts[id].balance + delta) then Step(s', Err(NumericOutOfRange))
      else Step(s'.(db := s.db.(accounts := Credit(s.db.accounts, id, delta))), Ok(id))
  }

  /** Reads one account row outside any transaction. */
  function ReadAccount(db: Db, id: int): (r: Result<Account, DbError>)
    ensures r.Ok? <==> id in db.accounts
    ensures r.Ok? ==> r.value == db.accounts[id]
    ensures r.Err? ==> r.error == NoRows
  {
    if id in db.accounts then Ok(db.accounts[id]) else Err(NoRows)
  }

  /** Reads one account row inside the session. */
  function GetAccount(s: Session, id: int): (out: Step<Account>)
    ensures out.session == Issue(s, GetAccountCall(id))
    ensures out.result.Ok? <==> NextFault(s).None? && id in s.db.accounts
    ensures out.result.Ok? ==> out.result.value == s.db.accounts[id]
    ensures NextFault(s).Some? ==> out.result == Err(NextFault(s).value)
    ensures NextFault(s).None? && id !in s.db.accounts ==> out.result == Err(NoRows)
  {
    var s' := Issue(s, GetAccountCall(id));
    match NextFault(s)
    case Some(e) => Step(s', Err(e))
    case None => Step(s', ReadAccount(s.db, id))
  }

  /** A committed write outside any transaction. */
  datatype DbReply<T> = DbReply(db: Db, result: Result<T, DbError>)

  /** The administrative balance overwrite: sets the stored balance of row `id` and returns
      the id. It creates no entry. */
  function UpdateBalance(db: Db, p: UpdateBalanceParams): (out: DbReply<int>)
    ensures out.db.entries == db.entries && out.db.transfers == db.transfers
    ensures out.db.accounts.Keys == db.accounts.Keys
    ensures out.result.Ok? <==> p.id in db.accounts
    ensures out.result.Ok? ==>
              && out.result.value == p.id
              && out.db.accounts[p.id] == db.accounts[p.id].(balance := p.balance)
              && forall other :: other in db.accounts && other != p.id ==> out.db.accounts[other] == db.accounts[other]
    ensures out.result.Err? ==> out.db == db && out.result.error == NoRows
  {
    if p.id !in db.accounts then DbReply(db, Err(NoRows))
    else DbReply(db.(accounts := db.accounts[p.id := db.accounts[p.id].(balance := p.balance)]), Ok(p.id))
  }

  /** The signed sum of the entries recorded against account `id`. */
  function Net(entries: seq<Entry>, id: int): (sum: int)
  {
    if entries == [] then 0
    else
      var last := entries[|entries| - 1];
      Net(entries[..|entries| - 1], id) + (if last.accountId == id then last.amount else 0)
  }

  /** Every balance equals the sum of its account's entries. */
  ghost predicate Consistent(db: Db) {
    forall id :: id in db.accounts ==> db.accounts[id].balance == Net(db.entries, id)
  }

  lemma NetAppend(entries: seq<Entry>, e: Entry, id: int)
    ensures Net(entries + [e], id) == Net(entries, id) + (if e.accountId == id then e.amount else 0)
  {
    assert (entries + [e])[..|entries|] == entries;
  }

  /** Overwriting a balance keeps the ledger consistent exactly when the new value happens
      to be the account's entry sum; any other value breaks the invariant. */
  lemma {:induction false} OverwriteConsistentIff(db: Db, p: UpdateBalanceParams)
    requires Consistent(db)
    requires p.id in db.accounts
    ensures Consistent(UpdateBalance(db, p).db) <==> p.balance == Net(db.entries, p.id)
  {
    var after := UpdateBalance(db, p).db;
    if p.balance == Net(db.entries, p.id) {
      forall id | id in after.accounts
        ensures after.accounts[id].balance == Net(after.entries, id)
      {
        if id != p.id {
          assert after.accounts[id] == db.accounts[id];
        }
      }
    } else {
      assert after.accounts[p.id].balance != Net(after.entries, p.id);
    }
  }

  /** A concrete case: an empty-history account set to 5 through the overwrite path. */
  lemma OverwriteBreaksConsistencyExample()
    ensures var db := Db(map[1 := Account(1, "alice", 0, "USD")], [], []);
            Consistent(db) && !Consistent(UpdateBalance(db, UpdateBalanceParams(1, 5)).db)
  {
    var db := Db(map[1 := Account(1, "alice", 0, "USD")], [], []);
    OverwriteConsistentIff(db, UpdateBalanceParams(1, 5));
  }
}
