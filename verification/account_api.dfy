/** The account handlers: create, get, list, update and delete. Each is a pure function of
    the request and the store's reply, reporting the store calls it made. */
module AccountApi {
  import opened Results
  import Int64
  import Currency
  import opened Ledger
  import opened Http

  /** The store calls the account handlers can make. */
  datatype AccountCall =
    | InsertAccount(params: CreateAccountParams)
    | FetchAccount(id: int)
    | FetchPage(page: ListAccountsParams)
    | OverwriteBalance(update: UpdateBalanceParams)
    | RemoveAccount(id: int)

  // ---------------------------------------------------------------------------
  // createAccount
  // ---------------------------------------------------------------------------

  datatype CreateAccountRequest = CreateAccountRequest(owner: string, currency: string)

  /** `owner` is required (non-empty) and `currency` must be supported. */
  predicate CreateBinds(req: CreateAccountRequest) {
    req.owner != "" && Currency.IsSupportedCurrency(req.currency)
  }

  /** The two PostgreSQL constraint errors the handler reports as 403. */
  predicate IsConstraintViolation(e: DbError) {
    e == ForeignKeyViolation || e == UniqueViolation
  }

  function CreateAccount(req: CreateAccountRequest, insert: CreateAccountParams -> Result<Account, DbError>): (h: Handled<Account, AccountCall>)
    ensures h.calls == [] <==> !CreateBinds(req)
    ensures !CreateBinds(req) ==> h.response == Rejected(BadRequest)
    // the account is opened with a zero balance and the request's owner and currency
    ensures CreateBinds(req) ==> h.calls == [InsertAccount(CreateAccountParams(req.owner, 0, req.currency))]
    ensures h.response.OK? <==> CreateBinds(req) && insert(CreateAccountParams(req.owner, 0, req.currency)).Ok?
    ensures h.response.OK? ==> h.response.body == insert(CreateAccountParams(req.owner, 0, req.currency)).value
    // a foreign-key or uniqueness violation is 403; any other error is 500
    ensures h.response == Rejected(Forbidden) <==>
              CreateBinds(req) && insert(CreateAccountParams(req.owner, 0, req.currency)).Err?
              && IsConstraintViolation(insert(CreateAccountParams(req.owner, 0, req.currency)).error)
    ensures CreateBinds(req) && insert(CreateAccountParams(req.owner, 0, req.currency)).Err?
            && !IsConstraintViolation(insert(CreateAccountParams(req.owner, 0, req.currency)).error) ==>
              h.response == Rejected(InternalError)
  {
    if !CreateBinds(req) then Handled(Rejected(BadRequest), [])
    else
      var arg := CreateAccountParams(req.owner, 0, req.currency);
      var calls := [InsertAccount(arg)];
      match insert(arg)
      case Err(ForeignKeyViolation) => Handled(Rejected(Forbidden), calls)
      case Err(UniqueViolation) => Handled(Rejected(Forbidden), calls)
      case Err(_) => Handled(Rejected(InternalError), calls)
      case Ok(account) => Handled(OK(account), calls)
  }

  /** The row a bound create request inserts opens with a zero balance, so adding it under a
      fresh id with no entries keeps every balance equal to the sum of its entries. */
  lemma ZeroOpeningBalanceKeepsConsistency(
    db: Db,
    id: int,
    req: CreateAccountRequest,
    insert: CreateAccountParams -> Result<Account, DbError>)
    requires CreateBinds(req)
    requires Consistent(db) && id !in db.accounts
    requires Net(db.entries, id) == 0
    ensures var p := CreateAccount(req, insert).calls[0].params;
            && p.balance == 0
            && Consistent(db.(accounts := db.accounts[id := Account(id, p.owner, p.balance, p.currency)]))
  {
  }

  // ---------------------------------------------------------------------------
  // getAccount
  // ---------------------------------------------------------------------------

  /** The `uri` id binds as an int64 of at least 1. */
  predicate IdBinds(id: int) {
    Int64.InRange(id) && id >= 1
  }

  /** No owner check is made: the caller's identity is not an input. */
  function GetAccount(id: int, fetch: int -> Result<Account, DbError>): (h: Handled<Account, AccountCall>)
    ensures h.calls == [] <==> !IdBinds(id)
    ensures !IdBinds(id) ==> h.response == Rejected(BadRequest)
    ensures IdBinds(id) ==> h.calls == [FetchAccount(id)]
    ensures h.response.OK? <==> IdBinds(id) && fetch(id).Ok?
    ensures h.response.OK? ==> h.response.body == fetch(id).value
    // a missing row is 404, any other error 500
    ensures h.response == Rejected(NotFound) <==> IdBinds(id) && fetch(id) == Err(NoRows)
    ensures IdBinds(id) && fetch(id).Err? && fetch(id).error != NoRows ==> h.response == Rejected(InternalError)
  {
    if !IdBinds(id) then Handled(Rejected(BadRequest), [])
    else
      match fetch(id)
      case Err(NoRows) => Handled(Rejected(NotFound), [FetchAccount(id)])
      case Err(_) => Handled(Rejected(InternalError), [FetchAccount(id)])
      case Ok(account) => Handled(OK(account), [FetchAccount(id)])
  }

  /** Against a store whose fetch reads the tables: a bound id answers 200 with the stored
      row exactly when the row exists and 404 exactly when it does not; 500 never occurs. */
  lemma GetAgainstStore(db: Db, id: int)
    ensures var h := GetAccount(id, i => ReadAccount(db, i));
            && StatusCode(h.response) == (if !IdBinds(id) then 400 else if id in db.accounts then 200 else 404)
            && (h.response.OK? <==> IdBinds(id) && id in db.accounts)
            && (h.response.OK? ==> h.response.body == db.accounts[id])
            && (h.response == Rejected(NotFound) <==> IdBinds(id) && id !in db.accounts)
            && h.response != Rejected(InternalError)
  {
  }

  // ---------------------------------------------------------------------------
  // listAccounts
  // ---------------------------------------------------------------------------

  /** `page_size` in 5..10 and `page_id` at least 1, both int64. */
  predicate PageBinds(pageSize: int, pageId: int) {
    Int64.InRange(pageSize) && Int64.InRange(pageId) && 5 <= pageSize <= 10 && pageId >= 1
  }

  /** The query window: `Limit` is the page size and `Offset` is `(page_id - 1) * page_size`
      computed in int64. `Owner` is never set, so it keeps Go's zero value `""`. */
  function PageParams(pageSize: int, pageId: int): (w: ListAccountsParams) {
    ListAccountsParams("", pageSize, Int64.Wrap((pageId - 1) * pageSize))
  }

  function ListAccounts(pageSize: int, pageId: int, fetch: ListAccountsParams -> Result<seq<Account>, DbError>): (h: Handled<seq<Account>, AccountCall>)
    ensures h.calls == [] <==> !PageBinds(pageSize, pageId)
    ensures !PageBinds(pageSize, pageId) ==> h.response == Rejected(BadRequest)
    ensures PageBinds(pageSize, pageId) ==>
              && |h.calls| == 1 && h.calls[0].FetchPage?
              && h.calls[0].page.limit == pageSize
              && h.calls[0].page.owner == ""
              && h.calls[0].page == PageParams(pageSize, pageId)
    ensures h.response.OK? <==> PageBinds(pageSize, pageId) && fetch(PageParams(pageSize, pageId)).Ok?
    ensures h.response.OK? ==> h.response.body == fetch(PageParams(pageSize, pageId)).value
    ensures PageBinds(pageSize, pageId) && fetch(PageParams(pageSize, pageId)).Err? ==> h.response == Rejected(InternalError)
  {
    if !PageBinds(pageSize, pageId) then Handled(Rejected(BadRequest), [])
    else
      var arg := PageParams(pageSize, pageId);
      match fetch(arg)
      case Err(_) => Handled(Rejected(InternalError), [FetchPage(arg)])
      case Ok(accounts) => Handled(OK(accounts), [FetchPage(arg)])
  }

  /** The owner the listing passes is never the owner of an account opened through the create
      handler, which refuses an empty owner: a query that filters on equal owners lists none
      of them. */
  lemma ListedOwnerMatchesNoCreatedAccount(
    pageSize: int,
    pageId: int,
    req: CreateAccountRequest,
    insert: CreateAccountParams -> Result<Account, DbError>)
    requires PageBinds(pageSize, pageId) && CreateBinds(req)
    ensures ListAccounts(pageSize, pageId, _ => Ok([])).calls[0].page.owner
              != CreateAccount(req, insert).calls[0].params.owner
  {
  }

  /** The only multiple of `k` strictly between `-k` and `k` is zero. */
  lemma BoundedMultipleIsZero(m: int, k: int, r: int)
    requires k > 0 && 0 <= r < k && m * k == r
    ensures m == 0
  {
    MultipleMagnitude(m, k);
  }

  lemma MultipleMagnitude(m: int, k: int)
    requires k > 0
    ensures m >= 1 ==> m * k >= k
    ensures m <= -1 ==> m * k <= -k
  {
  }

  /** Dividing an exact multiple gives back its factor with no remainder. */
  lemma MultipleDivides(n: int, k: int)
    requires n >= 0 && k > 0
    ensures n * k >= 0 && (n * k) % k == 0 && (n * k) / k == n
  {
    var q, r := (n * k) / k, (n * k) % k;
    assert (n - q) * k == r by {
      assert n * k == q * k + r;
    }
    BoundedMultipleIsZero(n - q, k, r);
  }

  /** While the product fits in int64, the offset is a non-negative multiple of the limit that
      skips exactly the earlier pages; page 1 starts at offset 0 and each next page starts
      one limit further on. */
  lemma PageOffsetArithmetic(pageSize: int, pageId: int)
    requires PageBinds(pageSize, pageId)
    requires (pageId - 1) * pageSize <= Int64.Max - pageSize
    ensures var w := PageParams(pageSize, pageId);
            && w.offset >= 0
            && w.offset % w.limit == 0
            && w.offset / w.limit == pageId - 1
            && (pageId == 1 ==> w.offset == 0)
            && PageParams(pageSize, pageId + 1).offset == w.offset + w.limit
  {
    var n := pageId - 1;
    var product := n * pageSize;
    MultipleDivides(n, pageSize);
    assert Int64.InRange(product);
    assert PageParams(pageSize, pageId).offset == product;
    assert (pageId + 1 - 1) * pageSize == product + pageSize by {
      assert (n + 1) * pageSize == n * pageSize + pageSize;
    }
  }

  /** For a huge but bindable `page_id` the int64 product wraps, and a negative offset is
      handed to the store. */
  lemma HugePageIdWrapsOffset()
    ensures PageBinds(8, 0x1000_0000_0000_0001)
    ensures PageParams(8, 0x1000_0000_0000_0001).offset == Int64.Min
  {
    assert (0x1000_0000_0000_0001 - 1) * 8 == 0x8000_0000_0000_0000;
  }

  // ---------------------------------------------------------------------------
  // updateAccount
  // ---------------------------------------------------------------------------

  /** `id` is an int64 of at least 1; `balance` is a `required` int64, so zero does not bind. */
  predicate UpdateBinds(id: int, balance: int) {
    Int64.InRange(id) && id >= 1 && Int64.InRange(balance) && balance != 0
  }

  /** Overwrites the stored balance directly; no entry or transfer is written. */
  function UpdateAccount(id: int, balance: int, overwrite: UpdateBalanceParams -> Result<int, DbError>): (h: Handled<int, AccountCall>)
    ensures h.calls == [] <==> !UpdateBinds(id, balance)
    ensures !UpdateBinds(id, balance) ==> h.response == Rejected(BadRequest)
    ensures UpdateBinds(id, balance) ==> h.calls == [OverwriteBalance(UpdateBalanceParams(id, balance))]
    ensures h.response.OK? <==> UpdateBinds(id, balance) && overwrite(UpdateBalanceParams(id, balance)).Ok?
    ensures h.response.OK? ==> h.response.body == overwrite(UpdateBalanceParams(id, balance)).value
    ensures h.response.Rejected? && UpdateBinds(id, balance) ==> h.response == Rejected(InternalError)
  {
    if !UpdateBinds(id, balance) then Handled(Rejected(BadRequest), [])
    else
      var arg := UpdateBalanceParams(id, balance);
      match overwrite(arg)
      case Err(_) => Handled(Rejected(InternalError), [OverwriteBalance(arg)])
      case Ok(accountId) => Handled(OK(accountId), [OverwriteBalance(arg)])
  }

  /** The one write `updateAccount` makes bypasses the entry ledger: it leaves the entries as
      they were and breaks the balance-equals-entries invariant unless the new balance
      happens to equal the entry sum. */
  lemma UpdateBypassesLedger(db: Db, id: int, balance: int)
    requires UpdateBinds(id, balance) && Consistent(db) && id in db.accounts
    ensures var h := UpdateAccount(id, balance, p => UpdateBalance(db, p).result);
            && h.response == OK(id)
            && h.calls == [OverwriteBalance(UpdateBalanceParams(id, balance))]
            && UpdateBalance(db, UpdateBalanceParams(id, balance)).db.entries == db.entries
            && (Consistent(UpdateBalance(db, UpdateBalanceParams(id, balance)).db) <==> balance == Net(db.entries, id))
  {
    OverwriteConsistentIff(db, UpdateBalanceParams(id, balance));
  }

  // ---------------------------------------------------------------------------
  // deleteAccount
  // ---------------------------------------------------------------------------

  /** Every error the store reports is 500; success echoes the id. Whether a missing row is
      reported as an error depends on the delete query, which is not part of this model. */
  function DeleteAccount(id: int, remove: int -> Option<DbError>): (h: Handled<int, AccountCall>)
    ensures h.calls == [] <==> !IdBinds(id)
    ensures !IdBinds(id) ==> h.response == Rejected(BadRequest)
    ensures IdBinds(id) ==> h.calls == [RemoveAccount(id)]
    ensures h.response.OK? <==> IdBinds(id) && remove(id).None?
    ensures h.response.OK? ==> h.response.body == id
    ensures IdBinds(id) && remove(id).Some? ==> h.response == Rejected(InternalError)
    ensures h.response != Rejected(NotFound) && h.response != Rejected(Forbidden)
  {
    if !IdBinds(id) then Handled(Rejected(BadRequest), [])
    else
      match remove(id)
      case Some(_) => Handled(Rejected(InternalError), [RemoveAccount(id)])
      case None => Handled(OK(id), [RemoveAccount(id)])
  }

  /** The handler reads the store's reply only as "failed or not": two stores that fail on
      the same ids, with whatever errors, get the same answers. */
  lemma DeleteIgnoresErrorKind(id: int, remove: int -> Option<DbError>, remove': int -> Option<DbError>)
    requires remove(id).None? <==> remove'(id).None?
    ensures DeleteAccount(id, remove) == DeleteAccount(id, remove')
    ensures StatusCode(DeleteAccount(id, remove).response) in {200, 400, 500}
  {
  }
}
