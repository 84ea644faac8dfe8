/** The database the handlers and the batch job work on, and the transaction
    handle (`*gorm.DB` after `Begin`) through which they change it. */
module Store {
  import opened Models

  /** The database: the accounts table keyed by primary key, the ledger in
      insertion order, and the next primary key the accounts table hands out. */
  class Db {
    var accounts: map<nat, Account>
    var ledger: seq<Entry>
    var nextAccountId: nat

    ghost predicate Valid()
      reads this
    {
      WellFormed(accounts, ledger, nextAccountId)
    }

    constructor ()
      ensures Valid()
      ensures accounts == map[] && ledger == [] && nextAccountId == 1
    {
      accounts, ledger, nextAccountId := map[], [], 1;
    }

    /** All money held in the accounts table. */
    function TotalBalance(): real
      reads this
    {
      Total(accounts, nextAccountId)
    }
  }

  /** A transaction handle is open until it is committed or rolled back; a
      finished handle rejects every further statement. */
  datatype HandleState = Open | Committed | RolledBack

  /** A database transaction begun on `db`. Its writes go to a private view of
      the two tables, which Commit publishes and Rollback discards. */
  class Handle {
    const db: Db
    var state: HandleState
    var accounts: map<nat, Account>
    var ledger: seq<Entry>

    ghost predicate Valid()
      reads this, db
    {
      db.Valid() && WellFormed(accounts, ledger, db.nextAccountId)
    }

    /** `db.Begin()`: the view starts as the committed state. */
    constructor Begin(db: Db)
      requires db.Valid()
      ensures Valid() && this.db == db && state == Open
      ensures accounts == db.accounts && ledger == db.ledger
    {
      this.db := db;
      state := Open;
      accounts, ledger := db.accounts, db.ledger;
    }

    /** `tx.Save(&a)`: overwrites the row with `a`'s key. It succeeds only on an
        open handle whose statement the database accepts (`fails` is false). */
    method Save(a: Account, fails: bool) returns (ok: bool)
      requires Valid() && a.id in accounts
      modifies this
      ensures Valid() && state == old(state) && ledger == old(ledger)
      ensures ok == (old(state) == Open && !fails)
      ensures accounts == if ok then old(accounts)[a.id := a] else old(accounts)
    {
      ok := state == Open && !fails;
      if ok {
        accounts := accounts[a.id := a];
      }
    }

    /** `tx.Create(&t)`: appends a ledger entry under the next key. */
    method Create(from: Option<nat>, to: Option<nat>, amount: real, kind: Kind, description: string, fails: bool)
      returns (ok: bool)
      requires Valid()
      modifies this
      ensures Valid() && state == old(state) && accounts == old(accounts)
      ensures ok == (old(state) == Open && !fails)
      ensures ledger == if ok then old(ledger) + [Entry(|old(ledger)| + 1, from, to, amount, kind, description)]
                        else old(ledger)
    {
      ok := state == Open && !fails;
      if ok {
        ledger := ledger + [Entry(|ledger| + 1, from, to, amount, kind, description)];
      }
    }

    /** `tx.Commit()`: publishes the view when the handle is open and the
        database accepts the commit; either way an open handle is then finished. */
    method Commit(fails: bool) returns (ok: bool)
      requires Valid()
      modifies this, db
      ensures Valid() && accounts == old(accounts) && ledger == old(ledger)
      ensures ok == (old(state) == Open && !fails)
      ensures state == if old(state) == Open then Committed else old(state)
      ensures db.nextAccountId == old(db.nextAccountId)
      ensures db.accounts == (if ok then accounts else old(db.accounts))
      ensures db.ledger == (if ok then ledger else old(db.ledger))
    {
      ok := state == Open && !fails;
      if ok {
        db.accounts, db.ledger := accounts, ledger;
      }
      if state == Open {
        state := Committed;
      }
    }

    /** `tx.Rollback()`: discards the view; on a finished handle it does nothing. */
    method Rollback()
      requires Valid()
      modifies this
      ensures Valid() && accounts == old(accounts) && ledger == old(ledger)
      ensures state == if old(state) == Open then RolledBack else old(state)
    {
      if state == Open {
        state := RolledBack;
      }
    }

    /** The tail of `db.DB.Transaction(fc)`: when the closure reported an error,
        roll back and report it; otherwise commit and report the commit's result. */
    method End(r: Outcome, commitFails: bool) returns (result: Outcome)
      requires Valid() && state == Open
      modifies this, db
      ensures Valid() && state != Open
      ensures result == if r.Fail? then r else if commitFails then Fail(StorageFailed) else Done
      ensures db.nextAccountId == old(db.nextAccountId)
      ensures result.Done? ==> db.accounts == old(accounts) && db.ledger == old(ledger)
      ensures result.Fail? ==> db.accounts == old(db.accounts) && db.ledger == old(db.ledger)
    {
      if r.Fail? {
        Rollback();
        result := r;
      } else {
        var ok := Commit(commitFails);
        result := if ok then Done else Fail(StorageFailed);
      }
    }
  }
}
