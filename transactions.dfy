/** The money-movement handlers (transfer, withdraw, deposit), each one
    all-or-nothing database transaction, and the two read-only ledger queries
    (history of an account, one entry by key). */
module TransactionHandlers {
  import opened Models
  import opened Store

  /** The JSON body of a transfer request. */
  datatype TransferInput = TransferInput(from: nat, to: nat, amount: real)

  /** The JSON body of a withdraw or deposit request. */
  datatype AmountInput = AmountInput(account: nat, amount: real)

  /** The transfer entry's text, which names both accounts. */
  function TransferDescription(from: nat, to: nat): string {
    "Transfer from account " + NatToString(from) + " to account " + NatToString(to)
  }

  /** The text of a transfer determines both of its accounts. */
  lemma TransferDescriptionInjective(from: nat, to: nat, from': nat, to': nat)
    requires TransferDescription(from, to) == TransferDescription(from', to')
    ensures from == from' && to == to'
  {
    var sep := " to account ";
    TransferDescriptionParts(from, to);
    TransferDescriptionParts(from', to');
    PrefixCancel("Transfer from account ", NatToString(from) + sep + NatToString(to),
                 NatToString(from') + sep + NatToString(to'));
    DigitsSplit(NatToString(from), sep, NatToString(to), NatToString(from'), NatToString(to'));
    NatToStringInjective(from, from');
    NatToStringInjective(to, to');
  }

  /** The fixed beginning of a transfer's text, then the part that names its accounts. */
  lemma TransferDescriptionParts(from: nat, to: nat)
    ensures TransferDescription(from, to)
         == "Transfer from account " + (NatToString(from) + " to account " + NatToString(to))
  {
  }

  /** Moves `input.amount` from one of the caller's accounts to any account.
      Storage calls are numbered 0: save source, 1: save destination, 2: insert
      the entry, 3: commit; `faults` holds those the database rejects. */
  method TransferFunds(db: Db, user: nat, input: TransferInput, faults: set<nat>) returns (r: Outcome)
    requires db.Valid()
    modifies db
    ensures db.Valid() && db.nextAccountId == old(db.nextAccountId)
    // the input check, before the database is touched
    ensures input.from == input.to || input.amount <= 0.0 ==> r == Fail(InvalidInput)
    // then in order: the source under the caller, the destination under anyone, the balance
    ensures input.from != input.to && input.amount > 0.0 ==>
      r == (if FindOwned(old(db.accounts), input.from, user).None? then Fail(SourceNotFound)
            else if FindById(old(db.accounts), input.to).None? then Fail(DestinationNotFound)
            else if old(db.accounts)[input.from].balance < input.amount then Fail(InsufficientSourceBalance)
            else if 0 in faults then Fail(SourceUpdateFailed)
            else if 1 in faults then Fail(DestinationUpdateFailed)
            else if 2 in faults || 3 in faults then Fail(StorageFailed)
            else Done)
    // a failure leaves both tables exactly as they were
    ensures r.Fail? ==> db.accounts == old(db.accounts) && db.ledger == old(db.ledger)
    ensures r.Done? ==>
      var from, to := old(db.accounts)[input.from], old(db.accounts)[input.to];
      db.accounts == old(db.accounts)[input.from := from.(balance := from.balance - input.amount)]
                                     [input.to := to.(balance := to.balance + input.amount)] &&
      db.ledger == old(db.ledger) + [Entry(|old(db.ledger)| + 1, Some(input.from), Some(input.to),
                                           input.amount, Transfer, TransferDescription(input.from, input.to))]
    ensures r.Done? ==> db.TotalBalance() == old(db.TotalBalance())
    ensures r.Done? ==> db.accounts[input.from].balance >= 0.0
  {
    if input.from == input.to || input.amount <= 0.0 {
      return Fail(InvalidInput);
    }
    var tx := new Handle.Begin(db);
    ghost var before := tx.accounts;
    r := Done;
    var source := FindOwned(tx.accounts, input.from, user);
    if source.None? {
      r := Fail(SourceNotFound);
    } else {
      var destination := FindById(tx.accounts, input.to);
      if destination.None? {
        r := Fail(DestinationNotFound);
      } else if source.value.balance < input.amount {
        r := Fail(InsufficientSourceBalance);
      } else {
        var from := source.value.(balance := source.value.balance - input.amount);
        var to := destination.value.(balance := destination.value.balance + input.amount);
        r := WriteTransfer(tx, from, to, input.amount, faults);
        TotalUpdate(before, input.from, from, db.nextAccountId);
        TotalUpdate(before[input.from := from], input.to, to, db.nextAccountId);
      }
    }
    r := tx.End(r, 3 in faults);
  }

  /** The writes of a transfer on an open handle: save the debited source (call
      0), save the credited destination (call 1), insert the entry (call 2). The
      first rejected write is reported and the rest are skipped. */
  method WriteTransfer(tx: Handle, from: Account, to: Account, amount: real, faults: set<nat>)
    returns (r: Outcome)
    requires tx.Valid() && tx.state == Open && from.id in tx.accounts && to.id in tx.accounts
    modifies tx
    ensures tx.Valid() && tx.state == Open
    ensures r == (if 0 in faults then Fail(SourceUpdateFailed)
                  else if 1 in faults then Fail(DestinationUpdateFailed)
                  else if 2 in faults then Fail(StorageFailed)
                  else Done)
    ensures r.Done? ==>
      tx.accounts == old(tx.accounts)[from.id := from][to.id := to] &&
      tx.ledger == old(tx.ledger) + [Entry(|old(tx.ledger)| + 1, Some(from.id), Some(to.id),
                                           amount, Transfer, TransferDescription(from.id, to.id))]
  {
    r := Done;
    var ok := tx.Save(from, 0 in faults);
    if !ok {
      return Fail(SourceUpdateFailed);
    }
    ok := tx.Save(to, 1 in faults);
    if !ok {
      return Fail(DestinationUpdateFailed);
    }
    ok := tx.Create(Some(from.id), Some(to.id), amount, Transfer, TransferDescription(from.id, to.id), 2 in faults);
    if !ok {
      return Fail(StorageFailed);
    }
  }

  /** Takes `input.amount` out of one of the caller's accounts. There is no
      check that the amount is positive. Storage calls: 0 save, 1 insert, 2 commit. */
  method WithdrawFunds(db: Db, user: nat, input: AmountInput, faults: set<nat>) returns (r: Outcome)
    requires db.Valid()
    modifies db
    ensures db.Valid() && db.nextAccountId == old(db.nextAccountId)
    ensures r == (if FindOwned(old(db.accounts), input.account, user).None? then Fail(AccountNotFound)
                  else if old(db.accounts)[input.account].balance < input.amount then Fail(InsufficientBalance)
                  else if 0 in faults then Fail(AccountUpdateFailed)
                  else if 1 in faults || 2 in faults then Fail(StorageFailed)
                  else Done)
    ensures r.Fail? ==> db.accounts == old(db.accounts) && db.ledger == old(db.ledger)
    ensures r.Done? ==>
      var a := old(db.accounts)[input.account];
      db.accounts == old(db.accounts)[input.account := a.(balance := a.balance - input.amount)] &&
      db.ledger == old(db.ledger) + [Entry(|old(db.ledger)| + 1, Some(input.account), None,
                                           input.amount, Withdraw, "Withdrawal from account")]
    ensures r.Done? ==> db.TotalBalance() == old(db.TotalBalance()) - input.amount
    ensures r.Done? ==> db.accounts[input.account].balance >= 0.0
  {
    var tx := new Handle.Begin(db);
    ghost var before := tx.accounts;
    r := Done;
    var found := FindOwned(tx.accounts, input.account, user);
    if found.None? {
      r := Fail(AccountNotFound);
    } else if found.value.balance < input.amount {
      r := Fail(InsufficientBalance);
    } else {
      var account := found.value.(balance := found.value.balance - input.amount);
      var ok := tx.Save(account, 0 in faults);
      if !ok {
        r := Fail(AccountUpdateFailed);
      } else {
        ok := tx.Create(Some(input.account), None, input.amount, Withdraw, "Withdrawal from account", 1 in faults);
        if !ok {
          r := Fail(StorageFailed);
        }
      }
      TotalUpdate(before, input.account, account, db.nextAccountId);
    }
    r := tx.End(r, 2 in faults);
  }

  /** Two withdrawals of an account's whole positive balance, one after the
      other: never do both succeed, and once the first has, the second is refused
      for the balance. */
  method WithdrawWholeBalanceTwice(db: Db, user: nat, input: AmountInput, faults1: set<nat>, faults2: set<nat>)
    returns (r1: Outcome, r2: Outcome)
    requires db.Valid() && FindOwned(db.accounts, input.account, user).Some?
    requires db.accounts[input.account].balance == input.amount && input.amount > 0.0
    modifies db
    ensures r1.Done? ==> r2 == Fail(InsufficientBalance)
    ensures !(r1.Done? && r2.Done?)
  {
    r1 := WithdrawFunds(db, user, input, faults1);
    r2 := WithdrawFunds(db, user, input, faults2);
  }

  /** Adds `input.amount` to one of the caller's accounts, with no balance or
      sign check. Storage calls: 0 save, 1 insert, 2 commit. */
  method DepositFunds(db: Db, user: nat, input: AmountInput, faults: set<nat>) returns (r: Outcome)
    requires db.Valid()
    modifies db
    ensures db.Valid() && db.nextAccountId == old(db.nextAccountId)
    ensures r == (if FindOwned(old(db.accounts), input.account, user).None? then Fail(AccountNotFound)
                  else if 0 in faults then Fail(AccountUpdateFailed)
                  else if 1 in faults || 2 in faults then Fail(StorageFailed)
                  else Done)
    ensures r.Fail? ==> db.accounts == old(db.accounts) && db.ledger == old(db.ledger)
    ensures r.Done? ==>
      var a := old(db.accounts)[input.account];
      db.accounts == old(db.accounts)[input.account := a.(balance := a.balance + input.amount)] &&
      db.ledger == old(db.ledger) + [Entry(|old(db.ledger)| + 1, None, Some(input.account),
                                           input.amount, Deposit, "Deposit into account")]
    ensures r.Done? ==> db.TotalBalance() == old(db.TotalBalance()) + input.amount
  {
    var tx := new Handle.Begin(db);
    ghost var before := tx.accounts;
    r := Done;
    var found := FindOwned(tx.accounts, input.account, user);
    if found.None? {
      r := Fail(AccountNotFound);
    } else {
      var account := found.value.(balance := found.value.balance + input.amount);
      var ok := tx.Save(account, 0 in faults);
      if !ok {
        r := Fail(AccountUpdateFailed);
      } else {
        ok := tx.Create(None, Some(input.account), input.amount, Deposit, "Deposit into account", 1 in faults);
        if !ok {
          r := Fail(StorageFailed);
        }
      }
      TotalUpdate(before, input.account, account, db.nextAccountId);
    }
    r := tx.End(r, 2 in faults);
  }

  // ---------------------------------------------------------------------------
  // History of one account

  const DefaultLimit: nat := 10

  /** The page size: the parsed `limit` query value when it is positive, else 10.
      `None` stands for a value that is absent or not an integer. */
  function EffectiveLimit(query: Option<int>): (limit: nat)
    ensures limit > 0
    ensures query.Some? && query.value > 0 ==> limit == query.value
    ensures !(query.Some? && query.value > 0) ==> limit == DefaultLimit
  {
    if query.Some? && query.value > 0 then query.value else DefaultLimit
  }

  /** The page start: the parsed `offset` query value when it is not negative, else 0. */
  function EffectiveOffset(query: Option<int>): (offset: nat)
    ensures query.Some? && query.value >= 0 ==> offset == query.value
    ensures !(query.Some? && query.value >= 0) ==> offset == 0
  {
    if query.Some? && query.value >= 0 then query.value else 0
  }

  /** `from_account_id = id OR to_account_id = id`: the account is one of those the entry points at. */
  function References(e: Entry, account: nat): (b: bool)
    ensures b <==> account in Referenced(e)
  {
    e.from == Some(account) || e.to == Some(account)
  }

  /** Entries carry strictly increasing keys. */
  predicate IdsAscending(s: seq<Entry>) {
    forall i, j :: 0 <= i < j < |s| ==> s[i].id < s[j].id
  }

  /** Entries carry strictly decreasing keys. */
  predicate IdsDescending(s: seq<Entry>) {
    forall i, j :: 0 <= i < j < |s| ==> s[i].id > s[j].id
  }

  /** The entries referencing `account`, latest inserted first
      (`Order("created_at DESC")`). */
  function NewestFirst(ledger: seq<Entry>, account: nat): (r: seq<Entry>)
    ensures |r| <= |ledger|
    ensures forall e :: e in r ==> e in ledger && References(e, account)
  {
    if |ledger| == 0 then []
    else
      var last := ledger[|ledger| - 1];
      (if References(last, account) then [last] else []) + NewestFirst(ledger[..|ledger| - 1], account)
  }

  /** No entry referencing the account is missing from the selection. */
  lemma {:induction false} NewestFirstComplete(ledger: seq<Entry>, account: nat, e: Entry)
    requires e in ledger && References(e, account)
    ensures e in NewestFirst(ledger, account)
  {
    var last := ledger[|ledger| - 1];
    if e != last {
      assert e in ledger[..|ledger| - 1];
      NewestFirstComplete(ledger[..|ledger| - 1], account, e);
    }
  }

  /** With keys in creation order, the selection is newest first: keys strictly decrease. */
  lemma {:induction false} NewestFirstDescending(ledger: seq<Entry>, account: nat)
    requires IdsAscending(ledger)
    ensures IdsDescending(NewestFirst(ledger, account))
  {
    if |ledger| > 0 {
      var prefix := ledger[..|ledger| - 1];
      var last := ledger[|ledger| - 1];
      assert IdsAscending(prefix);
      NewestFirstDescending(prefix, account);
      var rest := NewestFirst(prefix, account);
      forall e | e in rest ensures e.id < last.id {
        var i :| 0 <= i < |prefix| && prefix[i] == e;
        assert ledger[i] == e;
      }
    }
  }

  /** Every consistent ledger has its keys in creation order, so its histories are newest first. */
  lemma ValidLedgerIsAscending(accounts: map<nat, Account>, ledger: seq<Entry>, nextAccountId: nat)
    requires WellFormed(accounts, ledger, nextAccountId)
    ensures IdsAscending(ledger)
  {
    WellFormedKeys(accounts, ledger, nextAccountId);
  }

  /** `GET /accounts/:id/transactions`: only for the account's owner;
      the page `[offset, offset + limit)` of the entries referencing it, newest first. */
  function GetTransactionHistory(accounts: map<nat, Account>, ledger: seq<Entry>, user: nat, account: nat,
                                 limit: Option<int>, offset: Option<int>): (r: Result<seq<Entry>, Error>)
    ensures r.Err? <==> FindOwned(accounts, account, user).None?
    ensures r.Err? ==> r.error == AccountNotFound
    ensures r.Ok? ==>
      var all := NewestFirst(ledger, account);
      var o, l := EffectiveOffset(offset), EffectiveLimit(limit);
      |r.value| == (if o >= |all| then 0 else Min(l, |all| - o)) &&
      forall k :: 0 <= k < |r.value| ==> r.value[k] == all[o + k]
    ensures r.Ok? ==> forall e :: e in r.value ==> e in ledger && References(e, account)
  {
    if FindOwned(accounts, account, user).None? then Err(AccountNotFound)
    else Ok(Page(NewestFirst(ledger, account), EffectiveOffset(offset), EffectiveLimit(limit)))
  }

  /** Every page of a history is in newest-first order. */
  lemma HistoryIsNewestFirst(accounts: map<nat, Account>, ledger: seq<Entry>, user: nat, account: nat,
                             limit: Option<int>, offset: Option<int>)
    requires IdsAscending(ledger)
    ensures var r := GetTransactionHistory(accounts, ledger, user, account, limit, offset);
            r.Ok? ==> IdsDescending(r.value)
  {
    NewestFirstDescending(ledger, account);
  }

  /** An entry appended for an account is the first item of its owner's default history page. */
  lemma NewEntryHeadsHistory(accounts: map<nat, Account>, ledger: seq<Entry>, user: nat, account: nat, e: Entry)
    requires FindOwned(accounts, account, user).Some? && References(e, account)
    ensures var r := GetTransactionHistory(accounts, ledger + [e], user, account, None, None);
            r.Ok? && |r.value| >= 1 && r.value[0] == e
  {
    assert (ledger + [e])[..|ledger|] == ledger;
  }

  // ---------------------------------------------------------------------------
  // One entry by key

  /** `Where("id = ?", id).First(&transaction)`. */
  function FindEntry(ledger: seq<Entry>, id: nat): (r: Option<Entry>)
    ensures r.Some? ==> r.value in ledger && r.value.id == id
    ensures r.None? ==> forall e :: e in ledger ==> e.id != id
  {
    if |ledger| == 0 then None
    else if ledger[0].id == id then Some(ledger[0])
    else FindEntry(ledger[1..], id)
  }

  /** With keys numbered consecutively from `base`, the entry with key `id` is found at position `id - base`. */
  lemma {:induction false} FindEntryByPosition(ledger: seq<Entry>, id: nat, base: nat)
    requires forall i :: 0 <= i < |ledger| ==> ledger[i].id == base + i
    ensures FindEntry(ledger, id) == if base <= id < base + |ledger| then Some(ledger[id - base]) else None
  {
    if |ledger| > 0 && ledger[0].id != id {
      FindEntryByPosition(ledger[1..], id, base + 1);
    }
  }

  /** The accounts an entry points at. */
  function Referenced(e: Entry): set<nat> {
    (if e.from.Some? then {e.from.value} else {}) + (if e.to.Some? then {e.to.value} else {})
  }

  /** The access rule: the caller owns every referenced account that resolves. It is
      the same as passing the two checks on the source and the destination in turn. */
  function MayView(accounts: map<nat, Account>, e: Entry, user: nat): (b: bool)
    ensures b <==> (e.from.Some? ==> !Denies(FindById(accounts, e.from.value), user)) &&
                   (e.to.Some? ==> !Denies(FindById(accounts, e.to.value), user))
  {
    forall id :: id in Referenced(e) && id in accounts ==> accounts[id].userId == user
  }

  /** A reference denies access when its account resolves and belongs to someone else. */
  predicate Denies(found: Option<Account>, user: nat) {
    found.Some? && found.value.userId != user
  }

  /** `GET /transactions/:id`: the source account is checked, then the destination account. */
  function GetTransactionByID(accounts: map<nat, Account>, ledger: seq<Entry>, user: nat, id: nat)
    : (r: Result<Entry, Error>)
    ensures r == Err(TransactionNotFound) <==> FindEntry(ledger, id).None?
    ensures r.Ok? <==> FindEntry(ledger, id).Some? && MayView(accounts, FindEntry(ledger, id).value, user)
    ensures r.Ok? ==> r.value in ledger && r.value.id == id
    ensures r.Err? ==> r.error == TransactionNotFound || r.error == AccessDenied
  {
    match FindEntry(ledger, id)
    case None => Err(TransactionNotFound)
    case Some(e) =>
      if e.from.Some? && Denies(FindById(accounts, e.from.value), user) then Err(AccessDenied)
      else if e.to.Some? && Denies(FindById(accounts, e.to.value), user) then Err(AccessDenied)
      else Ok(e)
  }

  /** A transfer between accounts of two different users is visible to nobody. */
  lemma CrossUserTransferHidden(accounts: map<nat, Account>, ledger: seq<Entry>, id: nat, user: nat)
    requires FindEntry(ledger, id).Some?
    requires var e := FindEntry(ledger, id).value;
      e.from.Some? && e.to.Some? && e.from.value in accounts && e.to.value in accounts &&
      accounts[e.from.value].userId != accounts[e.to.value].userId
    ensures GetTransactionByID(accounts, ledger, user, id) == Err(AccessDenied)
  {
    var e := FindEntry(ledger, id).value;
    if accounts[e.from.value].userId == user {
      assert e.to.value in Referenced(e);
    } else {
      assert e.from.value in Referenced(e);
    }
  }

  /** An entry with one resolvable account (a withdrawal, a deposit, interest) is
      visible exactly to that account's owner. */
  lemma SingleAccountEntryVisibleToOwner(accounts: map<nat, Account>, ledger: seq<Entry>, id: nat, user: nat)
    requires FindEntry(ledger, id).Some?
    requires var e := FindEntry(ledger, id).value;
      |Referenced(e)| == 1 && (forall a :: a in Referenced(e) ==> a in accounts)
    ensures var e := FindEntry(ledger, id).value;
      forall a :: a in Referenced(e) ==>
        (GetTransactionByID(accounts, ledger, user, id).Ok? <==> accounts[a].userId == user)
  {
    var e := FindEntry(ledger, id).value;
    forall a | a in Referenced(e)
      ensures MayView(accounts, e, user) <==> accounts[a].userId == user
    {
      assert Referenced(e) == {a} by {
        var s := Referenced(e);
        assert |s - {a}| == 0;
      }
    }
  }
}
