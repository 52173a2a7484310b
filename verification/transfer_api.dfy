/** The `createTransfer` handler: request binding, the account guards, and the hand-off to
    the transfer transaction. The authenticated username is an input. */
module TransferApi {
  import opened Results
  import Int64
  import Currency
  import opened Ledger
  import opened Tx
  import opened TransferEngine
  import opened Http
  import TransferLaws

  datatype TransferRequest = TransferRequest(fromAccountId: int, toAccountId: int, amount: int, currency: string)

  /** The store calls the handler can make. */
  datatype TransferCall = LookupAccount(id: int) | RunTransfer(params: TransferTxParams)

  /** The binding tags of `transferRequest`: int64 ids of at least 1, a positive int64
      amount and a supported currency. A missing field binds as zero or "" and fails. */
  predicate Binds(req: TransferRequest) {
    && Int64.InRange(req.fromAccountId) && req.fromAccountId >= 1
    && Int64.InRange(req.toAccountId) && req.toAccountId >= 1
    && Int64.InRange(req.amount) && req.amount > 0
    && Currency.IsSupportedCurrency(req.currency)
  }

  /** The engine's parameters: the request's own ids and amount, in order; a bound request
      carries int64 values throughout. */
  function ParamsOf(req: TransferRequest): (p: TransferTxParams)
    ensures p.fromAccountId == req.fromAccountId && p.toAccountId == req.toAccountId && p.amount == req.amount
    ensures Binds(req) ==> ValidParams(p) && p.amount > 0
  {
    TransferTxParams(req.fromAccountId, req.toAccountId, req.amount)
  }

  /** `validate_account`: the account must exist and use the request's currency. A missing
      row is 404, any other lookup error 500, a currency mismatch 400. */
  function ValidateAccount(lookup: int -> Result<Account, DbError>, id: int, currency: string): (r: Result<Account, Rejection>)
    ensures r.Ok? <==> lookup(id).Ok? && lookup(id).value.currency == currency
    ensures r.Ok? ==> r.value == lookup(id).value
    ensures lookup(id) == Err(NoRows) ==> r == Err(NotFound)
    ensures lookup(id).Err? && lookup(id).error != NoRows ==> r == Err(InternalError)
    ensures lookup(id).Ok? && lookup(id).value.currency != currency ==> r == Err(BadRequest)
  {
    match lookup(id)
    case Err(NoRows) => Err(NotFound)
    case Err(_) => Err(InternalError)
    case Ok(account) =>
      if account.currency != currency then Err(BadRequest) else Ok(account)
  }

  /** Every guard before the engine passes: the source account is valid and owned by the
      caller, and the destination account is valid. */
  ghost predicate GuardsPass(req: TransferRequest, username: string, lookup: int -> Result<Account, DbError>) {
    && Binds(req)
    && ValidateAccount(lookup, req.fromAccountId, req.currency).Ok?
    && ValidateAccount(lookup, req.fromAccountId, req.currency).value.owner == username
    && ValidateAccount(lookup, req.toAccountId, req.currency).Ok?
  }

  function CreateTransfer(
    req: TransferRequest,
    username: string,
    lookup: int -> Result<Account, DbError>,
    transferTx: TransferTxParams -> Result<TransferTxResult, TxError>
  ): (h: Handled<TransferTxResult, TransferCall>)
    // a request that does not bind is 400 and touches no store
    ensures h.calls == [] <==> !Binds(req)
    ensures !Binds(req) ==> h.response == Rejected(BadRequest)
    // the checks run in a fixed order: source lookup, owner check, destination lookup, engine
    ensures h.calls <= [LookupAccount(req.fromAccountId), LookupAccount(req.toAccountId), RunTransfer(ParamsOf(req))]
    // the engine is reached exactly when every guard passes, with the request's own values
    ensures RunTransfer(ParamsOf(req)) in h.calls <==> GuardsPass(req, username, lookup)
    ensures (exists c :: c in h.calls && c.RunTransfer?) <==> GuardsPass(req, username, lookup)
    // a source account of someone else is 401, after exactly one lookup
    ensures Binds(req) && ValidateAccount(lookup, req.fromAccountId, req.currency).Ok?
            && ValidateAccount(lookup, req.fromAccountId, req.currency).value.owner != username ==>
              h == Handled(Rejected(Unauthorized), [LookupAccount(req.fromAccountId)])
    // a failed source check answers with its own rejection, after that one lookup
    ensures Binds(req) && ValidateAccount(lookup, req.fromAccountId, req.currency).Err? ==>
              h == Handled(Rejected(ValidateAccount(lookup, req.fromAccountId, req.currency).error),
                           [LookupAccount(req.fromAccountId)])
    // a failed destination check answers with its own rejection, after both lookups
    ensures Binds(req) && ValidateAccount(lookup, req.fromAccountId, req.currency).Ok?
            && ValidateAccount(lookup, req.fromAccountId, req.currency).value.owner == username
            && ValidateAccount(lookup, req.toAccountId, req.currency).Err? ==>
              h == Handled(Rejected(ValidateAccount(lookup, req.toAccountId, req.currency).error),
                           [LookupAccount(req.fromAccountId), LookupAccount(req.toAccountId)])
    // the engine's answer: its error is 500, its result is 200
    ensures h.response.OK? <==> GuardsPass(req, username, lookup) && transferTx(ParamsOf(req)).Ok?
    ensures h.response.OK? ==> h.response.body == transferTx(ParamsOf(req)).value
    ensures GuardsPass(req, username, lookup) && transferTx(ParamsOf(req)).Err? ==>
              h.response == Rejected(InternalError)
  {
    if !Binds(req) then Handled(Rejected(BadRequest), [])
    else
      var source := ValidateAccount(lookup, req.fromAccountId, req.currency);
      if source.Err? then Handled(Rejected(source.error), [LookupAccount(req.fromAccountId)])
      else if source.value.owner != username then Handled(Rejected(Unauthorized), [LookupAccount(req.fromAccountId)])
      else
        var destination := ValidateAccount(lookup, req.toAccountId, req.currency);
        var looked := [LookupAccount(req.fromAccountId), LookupAccount(req.toAccountId)];
        if destination.Err? then Handled(Rejected(destination.error), looked)
        else
          var calls := looked + [RunTransfer(ParamsOf(req))];
          match transferTx(ParamsOf(req))
          case Err(_) => Handled(Rejected(InternalError), calls)
          case Ok(result) => Handled(OK(result), calls)
  }

  /** Against a store whose lookups read the tables: an account passes exactly when it
      exists and is held in the request's currency; a missing one is 404, a mismatched one
      400, and 500 never occurs. */
  lemma ValidateAgainstStore(db: Db, id: int, currency: string)
    ensures var r := ValidateAccount(i => ReadAccount(db, i), id, currency);
            && (r.Ok? <==> id in db.accounts && db.accounts[id].currency == currency)
            && (r.Ok? ==> r.value == db.accounts[id])
            && (r == Err(NotFound) <==> id !in db.accounts)
            && (r == Err(BadRequest) <==> id in db.accounts && db.accounts[id].currency != currency)
            && r != Err(InternalError)
  {
  }

  /** The destination's owner is never compared with the caller: two stores that differ only
      in who owns the destination account give the same answer (for distinct accounts). */
  lemma DestinationOwnerNeverChecked(
    req: TransferRequest,
    username: string,
    lookup: int -> Result<Account, DbError>,
    lookup': int -> Result<Account, DbError>,
    transferTx: TransferTxParams -> Result<TransferTxResult, TxError>,
    otherOwner: string)
    requires req.fromAccountId != req.toAccountId
    requires forall id :: id != req.toAccountId ==> lookup'(id) == lookup(id)
    requires lookup(req.toAccountId).Ok?
    requires lookup'(req.toAccountId) == Ok(lookup(req.toAccountId).value.(owner := otherOwner))
    ensures CreateTransfer(req, username, lookup', transferTx) == CreateTransfer(req, username, lookup, transferTx)
  {
    assert lookup'(req.fromAccountId) == lookup(req.fromAccountId);
  }

  /** Nothing in the handler compares the two ids: a self-transfer that passes the guards on
      its one account is handed to the engine. */
  lemma SelfTransferReachesEngine(
    req: TransferRequest,
    username: string,
    lookup: int -> Result<Account, DbError>,
    transferTx: TransferTxParams -> Result<TransferTxResult, TxError>)
    requires Binds(req) && req.fromAccountId == req.toAccountId
    requires lookup(req.fromAccountId).Ok?
    requires lookup(req.fromAccountId).value.currency == req.currency
    requires lookup(req.fromAccountId).value.owner == username
    ensures CreateTransfer(req, username, lookup, transferTx).calls ==
              [LookupAccount(req.fromAccountId), LookupAccount(req.fromAccountId),
               RunTransfer(TransferTxParams(req.fromAccountId, req.fromAccountId, req.amount))]
  {
  }

  /** End to end on a fault-free store: the caller's self-transfer is answered 200, and the
      account comes back with the balance it had. */
  lemma SelfTransferEndToEnd(db: Db, req: TransferRequest, username: string)
    requires Binds(req) && req.fromAccountId == req.toAccountId
    requires req.fromAccountId in db.accounts
    requires db.accounts[req.fromAccountId].owner == username
    requires db.accounts[req.fromAccountId].currency == req.currency
    requires Int64.InRange(db.accounts[req.fromAccountId].balance)
    requires Int64.InRange(db.accounts[req.fromAccountId].balance - req.amount)
    ensures var h := CreateTransfer(req, username, id => ReadAccount(db, id), p => TransferTx(db, NoTxFaults, map[], p).result);
            && h.response.OK?
            && h.response.body.fromAccount.balance == db.accounts[req.fromAccountId].balance
            && TransferTx(db, NoTxFaults, map[], ParamsOf(req)).db.accounts == db.accounts
  {
    var p := ParamsOf(req);
    assert p.amount != Int64.Min;
    TransferLaws.SelfTransferNotRejected(db, p);
    TransferLaws.SelfTransferKeepsBalance(db, NoTxFaults, map[], p);
  }
}
