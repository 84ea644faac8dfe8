/** Two eligible savings accounts and a night on which the database accepts every
    statement: the batch as written credits only the first, the batch with one
    transaction per account credits both. */
module InterestFindings {
  import opened Calendar
  import opened Models
  import opened Store
  import opened AccountHandlers
  import opened InterestJob

  /** 1 January 2023, midnight: a Sunday, so the window starts at offset 0. */
  const NewYear2023: Time := Time(2023, 1, 1, 0)

  const SavingsRates: map<string, real> := map["savings" := 0.1]

  /** Opens two savings accounts of 100 for one user; they get keys 1 and 2. */
  method OpenTwoSavingsAccounts() returns (db: Db)
    ensures fresh(db) && db.Valid() && db.nextAccountId == 3 && db.ledger == []
    ensures db.accounts == map[1 := NewAccount(1, 7, CreateAccountInput("savings", 100.0, "")),
                               2 := NewAccount(2, 7, CreateAccountInput("savings", 100.0, ""))]
  {
    db := new Db();
    var input := CreateAccountInput("savings", 100.0, "");
    var r1 := CreateAccount(db, 7, input, {});
    var r2 := CreateAccount(db, 7, input, {});
  }

  /** Both accounts are eligible and both fall inside that night's window. */
  lemma BothAccountsInWindow(accounts: map<nat, Account>)
    requires accounts == map[1 := NewAccount(1, 7, CreateAccountInput("savings", 100.0, "")),
                             2 := NewAccount(2, 7, CreateAccountInput("savings", 100.0, ""))]
    ensures Window(accounts, NewYear2023, 3) == [1, 2]
  {
    NewYear2023IsSunday(0);
    assert BatchOffset(NewYear2023) == 0;
    assert EligibleIds(accounts, NewYear2023, 1) == [];
    assert EligibleIds(accounts, NewYear2023, 3) == [1, 2];
  }

  /** The batch as written: the first account ends at 110, the second stays at 100. */
  method SecondAccountMissesInterest() returns (first: real, second: real)
    ensures first == 110.0 && second == 100.0
  {
    var db := OpenTwoSavingsAccounts();
    BothAccountsInWindow(db.accounts);
    ApplyInterestBatch(db, NewYear2023, SavingsRates, {});
    first, second := db.accounts[1].balance, db.accounts[2].balance;
  }

  /** The batch with one transaction per account: both accounts end at 110 and
      the ledger holds one interest entry for each. */
  method PerAccountBatchCreditsBoth() returns (first: real, second: real, entries: nat)
    ensures first == 110.0 && second == 110.0 && entries == 2
  {
    var db := OpenTwoSavingsAccounts();
    BothAccountsInWindow(db.accounts);
    var processed := ApplyInterestBatchPerAccount(db, NewYear2023, SavingsRates, {});
    assert [1, 2][..processed] == [1, 2];
    first, second, entries := db.accounts[1].balance, db.accounts[2].balance, |db.ledger|;
  }
}
