/** Account creation and the two owner-filtered account reads. */
module AccountHandlers {
  import opened Models
  import opened Store

  /** The JSON body of a create-account request. */
  datatype CreateAccountInput = CreateAccountInput(kind: string, balance: real, currency: string)

  const DefaultCurrency: string := "INR"

  /** The currency stored for a new account: the requested one, or INR when none was given. */
  function CurrencyOrDefault(currency: string): (r: string)
    ensures r != ""
    ensures currency != "" ==> r == currency
    ensures currency == "" ==> r == DefaultCurrency
  {
    if currency == "" then DefaultCurrency else currency
  }

  /** The row CreateAccount inserts for `user`: owned by the caller, with the requested
      type and opening balance, a currency, and no interest applied yet. */
  function NewAccount(id: nat, user: nat, input: CreateAccountInput): (a: Account)
    ensures a.id == id && a.userId == user
    ensures a.kind == input.kind && a.balance == input.balance
    ensures a.currency == CurrencyOrDefault(input.currency) && a.currency != ""
    ensures a.lastInterest == None
  {
    Account(id, user, input.balance, input.kind, CurrencyOrDefault(input.currency), None)
  }

  /** `POST /accounts`: inserts a new account owned by the caller, under a fresh
      key, and returns that key. Storage call 0 is the insert. */
  method CreateAccount(db: Db, user: nat, input: CreateAccountInput, faults: set<nat>) returns (r: Result<nat, Error>)
    requires db.Valid()
    modifies db
    ensures db.Valid() && db.ledger == old(db.ledger)
    ensures 0 in faults ==>
              r == Err(AccountCreateFailed) && db.accounts == old(db.accounts) &&
              db.nextAccountId == old(db.nextAccountId)
    ensures 0 !in faults ==>
              r.Ok? && r.value !in old(db.accounts) &&
              db.accounts == old(db.accounts)[r.value := NewAccount(r.value, user, input)] &&
              r.value == old(db.nextAccountId) && db.nextAccountId == r.value + 1
    ensures r.Ok? ==> db.TotalBalance() == old(db.TotalBalance()) + input.balance
  {
    if 0 in faults {
      return Err(AccountCreateFailed);
    }
    var id := db.nextAccountId;
    var account := NewAccount(id, user, input);
    ghost var before := db.accounts;
    db.accounts := db.accounts[id := account];
    db.nextAccountId := id + 1;
    TotalUpdate(before, id, account, id);
    r := Ok(id);
  }

  /** `GET /accounts`: the caller's accounts and no one else's. */
  function GetAccounts(accounts: map<nat, Account>, user: nat): (r: map<nat, Account>)
    ensures forall id :: id in r <==> id in accounts && accounts[id].userId == user
    ensures forall id :: id in r ==> r[id] == accounts[id]
  {
    map id | id in accounts && accounts[id].userId == user :: accounts[id]
  }

  /** `GET /accounts/:id`: the account when it exists and belongs to the caller. */
  function GetAccountByID(accounts: map<nat, Account>, user: nat, id: nat): (r: Result<Account, Error>)
    ensures r.Ok? <==> id in accounts && accounts[id].userId == user
    ensures r.Ok? ==> r.value == accounts[id]
    ensures r.Err? ==> r.error == AccountNotFound
  {
    match FindOwned(accounts, id, user)
    case Some(a) => Ok(a)
    case None => Err(AccountNotFound)
  }

  /** The two reads agree: an account can be fetched by key exactly when it is listed. */
  lemma GetAccountByIDAgreesWithList(accounts: map<nat, Account>, user: nat, id: nat)
    ensures GetAccountByID(accounts, user, id).Ok? <==> id in GetAccounts(accounts, user)
    ensures id in GetAccounts(accounts, user) ==>
      GetAccountByID(accounts, user, id) == Ok(GetAccounts(accounts, user)[id])
  {
  }

  /** After a creation, the creator's list gains exactly the new account and every
      other user's list is unchanged. */
  lemma CreatedAccountListedForOwnerOnly(accounts: map<nat, Account>, id: nat, user: nat,
                                         input: CreateAccountInput, other: nat)
    requires id !in accounts
    ensures GetAccounts(accounts[id := NewAccount(id, user, input)], user)
         == GetAccounts(accounts, user)[id := NewAccount(id, user, input)]
    ensures other != user ==>
      GetAccounts(accounts[id := NewAccount(id, user, input)], other) == GetAccounts(accounts, other)
  {
    var after := accounts[id := NewAccount(id, user, input)];
    assert GetAccounts(after, user).Keys == GetAccounts(accounts, user).Keys + {id};
    if other != user {
      assert GetAccounts(after, other).Keys == GetAccounts(accounts, other).Keys;
    }
  }
}
