/** The yearly interest batch: which accounts are eligible, which slice of
    them one run takes (by day of the week), and the run itself, which drives
    one transaction handle through the slice. */
module InterestJob {
  import opened Calendar
  import opened Models
  import opened Store

  const BatchSize: nat := 1000

  /** `last_interest_applied_at IS NULL OR last_interest_applied_at < startOfYear`. */
  function Eligible(stamp: Option<Time>, now: Time): (b: bool)
    ensures stamp.None? ==> b
    ensures stamp.Some? && ValidTime(stamp.value) ==> (b <==> stamp.value.year < now.year)
  {
    stamp.None? || Before(stamp.value, StartOfYear(now))
  }

  /** `dayIndex * batchSize` with `dayIndex = int(now.Weekday())`. */
  function BatchOffset(now: Time): (offset: nat)
    ensures offset % BatchSize == 0 && offset <= 6 * BatchSize
  {
    Weekday(now) * BatchSize
  }

  /** The job is scheduled on January 1 to 7 (`0 0 1-7 1 *`); on those seven days
      the offsets are seven different multiples of the batch size, 0 to 6000. */
  lemma FirstWeekOffsetsAreDistinct(year: int, clock: int)
    ensures forall j, k :: 1 <= j < k <= 7 ==>
      BatchOffset(Time(year, 1, j, clock)) != BatchOffset(Time(year, 1, k, clock))
    ensures (set k | 1 <= k <= 7 :: BatchOffset(Time(year, 1, k, clock)))
         == {0, 1000, 2000, 3000, 4000, 5000, 6000}
  {
    FirstWeekCoversEveryWeekday(year, clock);
    var offsets := set k | 1 <= k <= 7 :: BatchOffset(Time(year, 1, k, clock));
    forall d | 0 <= d < 7
      ensures d * BatchSize in offsets
    {
      assert d in FirstWeekWeekdays(year, clock);
      var k :| 1 <= k <= 7 && Weekday(Time(year, 1, k, clock)) == d;
      assert BatchOffset(Time(year, 1, k, clock)) == d * BatchSize;
    }
  }

  /** The keys below `bound` of the eligible accounts, in ascending order (`Order("id")`). */
  function EligibleIds(accounts: map<nat, Account>, now: Time, bound: nat): (r: seq<nat>)
    ensures forall k :: 0 <= k < |r| ==>
      r[k] < bound && r[k] in accounts && Eligible(accounts[r[k]].lastInterest, now)
    ensures forall j, k :: 0 <= j < k < |r| ==> r[j] < r[k]
    decreases bound
  {
    if bound == 0 then []
    else
      var id := bound - 1;
      EligibleIds(accounts, now, id) +
      (if id in accounts && Eligible(accounts[id].lastInterest, now) then [id] else [])
  }

  /** No eligible account below the bound is left out. */
  lemma {:induction false} EligibleIdsComplete(accounts: map<nat, Account>, now: Time, bound: nat, id: nat)
    requires id < bound && id in accounts && Eligible(accounts[id].lastInterest, now)
    ensures id in EligibleIds(accounts, now, bound)
  {
    if id < bound - 1 {
      EligibleIdsComplete(accounts, now, bound - 1, id);
    }
  }

  /** Any bound above every key selects the same accounts. */
  lemma {:induction false} EligibleIdsBoundIrrelevant(accounts: map<nat, Account>, now: Time, bound: nat, bound': nat)
    requires forall id :: id in accounts ==> id < bound
    requires bound <= bound'
    ensures EligibleIds(accounts, now, bound') == EligibleIds(accounts, now, bound)
    decreases bound'
  {
    if bound' > bound {
      EligibleIdsBoundIrrelevant(accounts, now, bound, bound' - 1);
    }
  }

  /** Stamping an eligible account removes it, and only it, from the eligible
      set of the same year; the rest keep their order, so every later position
      shifts down by one. */
  lemma {:induction false} StampedAccountLeavesEligibleSet(accounts: map<nat, Account>, id: nat, a: Account,
                                                           now: Time, bound: nat)
    requires id in accounts && Eligible(accounts[id].lastInterest, now)
    requires a.lastInterest.Some? && !Eligible(a.lastInterest, now)
    ensures var before, after := EligibleIds(accounts, now, bound), EligibleIds(accounts[id := a], now, bound);
      (forall x :: x in after <==> x in before && x != id) &&
      |after| == (if id < bound then |before| - 1 else |before|)
    decreases bound
  {
    if bound > 0 {
      StampedAccountLeavesEligibleSet(accounts, id, a, now, bound - 1);
      if id < bound - 1 {
        EligibleIdsComplete(accounts, now, bound - 1, id);
      }
    }
  }

  /** The accounts one run processes: positions `[offset, offset + 1000)` of the eligible keys. */
  function Window(accounts: map<nat, Account>, now: Time, bound: nat): (w: seq<nat>)
    ensures var eligible, offset := EligibleIds(accounts, now, bound), BatchOffset(now);
      |w| == (if offset >= |eligible| then 0 else Min(BatchSize, |eligible| - offset)) &&
      forall k :: 0 <= k < |w| ==> w[k] == eligible[offset + k]
    ensures forall k :: 0 <= k < |w| ==> w[k] in accounts && Eligible(accounts[w[k]].lastInterest, now)
    ensures forall j, k :: 0 <= j < k < |w| ==> w[j] < w[k]
  {
    Page(EligibleIds(accounts, now, bound), BatchOffset(now), BatchSize)
  }

  /** `constants.InterestRates[acc.Type]`: a type missing from the table reads as 0. */
  function RateFor(rates: map<string, real>, kind: string): (rate: real)
    ensures kind in rates ==> rate == rates[kind]
    ensures kind !in rates ==> rate == 0.0
  {
    if kind in rates then rates[kind] else 0.0
  }

  /** The account after its interest is applied. */
  function Accrue(a: Account, rates: map<string, real>, now: Time): (b: Account)
    ensures b.balance == a.balance + a.balance * RateFor(rates, a.kind)
    ensures b.lastInterest == Some(now)
    ensures b.id == a.id && b.userId == a.userId && b.kind == a.kind && b.currency == a.currency
    ensures a.kind !in rates ==> b.balance == a.balance
    ensures ValidTime(now) ==> !Eligible(b.lastInterest, now)
  {
    a.(balance := a.balance + a.balance * RateFor(rates, a.kind), lastInterest := Some(now))
  }

  /** `fmt.Sprintf("Interest for account ID %d", acc.ID)`: the text names the account. */
  function InterestDescription(id: nat): (d: string)
    ensures |d| > |"Interest for account ID "| && d[..|"Interest for account ID "|] == "Interest for account ID "
    ensures DigitsValue(d[|"Interest for account ID "|..]) == id
  {
    var prefix := "Interest for account ID ";
    assert (prefix + NatToString(id))[|prefix|..] == NatToString(id);
    prefix + NatToString(id)
  }

  /** Two interest entries' texts are equal only for the same account. */
  lemma InterestDescriptionInjective(a: nat, b: nat)
    ensures InterestDescription(a) == InterestDescription(b) ==> a == b
  {
  }

  /** The ledger entry recorded for `a`'s interest, under key `key`: credited to
      `a` alone, of kind interest. */
  function InterestEntry(key: nat, a: Account, rates: map<string, real>): (e: Entry)
    ensures e.id == key && e.from == None && e.to == Some(a.id) && e.kind == Interest
    ensures e.description == InterestDescription(a.id)
    ensures e.amount == a.balance * RateFor(rates, a.kind)
  {
    Entry(key, None, Some(a.id), a.balance * RateFor(rates, a.kind), Interest, InterestDescription(a.id))
  }

  /** The entry records exactly the change in the account's balance. */
  lemma InterestEntryRecordsAccrual(key: nat, a: Account, rates: map<string, real>, now: Time)
    ensures InterestEntry(key, a, rates).amount == Accrue(a, rates, now).balance - a.balance
  {
  }

  /** Applying interest to one account grows the money held by exactly its interest,
      so a run of the batch that commits adds exactly the interest it records. */
  lemma AccrueAddsInterestToTotal(accounts: map<nat, Account>, a: Account, rates: map<string, real>, now: Time,
                                  bound: nat)
    requires a.id in accounts && accounts[a.id] == a && a.id < bound
    ensures Total(accounts[a.id := Accrue(a, rates, now)], bound)
         == Total(accounts, bound) + a.balance * RateFor(rates, a.kind)
  {
    TotalUpdate(accounts, a.id, Accrue(a, rates, now), bound);
  }

  /** One pass of the batch loop for `acc` on the handle `tx`: Save, then Create,
      then Commit, with the storage calls numbered `step`, `step + 1`, `step + 2`.
      A rejected Save or Create rolls back and stops the batch (`stop`);
      `committed` reports whether the Commit published the update, a result the
      source does not look at. */
  method ApplyToAccount(tx: Handle, acc: Account, rates: map<string, real>, now: Time, step: nat, faults: set<nat>)
    returns (stop: bool, committed: bool)
    requires tx.Valid() && acc.id in tx.accounts
    modifies tx, tx.db
    ensures tx.Valid() && tx.state != Open
    ensures tx.db.nextAccountId == old(tx.db.nextAccountId)
    ensures tx.accounts.Keys == old(tx.accounts.Keys)
    ensures stop == (old(tx.state) != Open || step in faults || step + 1 in faults)
    ensures committed == (old(tx.state) == Open && step !in faults && step + 1 !in faults && step + 2 !in faults)
    ensures if committed then
              tx.db.accounts == old(tx.accounts)[acc.id := Accrue(acc, rates, now)] &&
              tx.db.ledger == old(tx.ledger) + [InterestEntry(|old(tx.ledger)| + 1, acc, rates)]
            else
              tx.db.accounts == old(tx.db.accounts) && tx.db.ledger == old(tx.db.ledger)
  {
    var ok := tx.Save(Accrue(acc, rates, now), step in faults);
    if !ok {
      tx.Rollback();
      return true, false;  // "Error applying interest for account ID ..."
    }
    stop, committed := RecordAndCommit(tx, acc, rates, step + 1, faults);
  }

  /** The rest of one pass once the Save is in the view: Create the interest
      entry (call `step`), then Commit (call `step + 1`); a rejected Create rolls
      back and stops the batch. */
  method RecordAndCommit(tx: Handle, acc: Account, rates: map<string, real>, step: nat, faults: set<nat>)
    returns (stop: bool, committed: bool)
    requires tx.Valid() && tx.state == Open
    modifies tx, tx.db
    ensures tx.Valid() && tx.state != Open
    ensures tx.db.nextAccountId == old(tx.db.nextAccountId) && tx.accounts == old(tx.accounts)
    ensures stop == (step in faults)
    ensures committed == (step !in faults && step + 1 !in faults)
    ensures if committed then
              tx.db.accounts == old(tx.accounts) &&
              tx.db.ledger == old(tx.ledger) + [InterestEntry(|old(tx.ledger)| + 1, acc, rates)]
            else
              tx.db.accounts == old(tx.db.accounts) && tx.db.ledger == old(tx.db.ledger)
  {
    var e := InterestEntry(|tx.ledger| + 1, acc, rates);
    var ok := tx.Create(e.from, e.to, e.amount, e.kind, e.description, step in faults);
    if !ok {
      tx.Rollback();
      return true, false;  // "Error creating transaction for account ID ..."
    }
    committed := tx.Commit(step + 1 in faults);
    stop := false;
  }

  /** `ApplyInterestBatch`, with the clock and the rate table as parameters.
      Storage calls are numbered 0: the selection query, then for the k-th
      account of the window 3k+1: save, 3k+2: insert the entry, 3k+3: commit;
      `faults` holds those the database rejects. The handle is begun once and
      committed inside the loop, so the second account's Save meets a finished
      handle: at most the first account of the window is ever updated. */
  method ApplyInterestBatch(db: Db, now: Time, rates: map<string, real>, faults: set<nat>)
    requires db.Valid()
    modifies db
    ensures db.Valid() && db.nextAccountId == old(db.nextAccountId)
    ensures var w := Window(old(db.accounts), now, old(db.nextAccountId));
      if |w| > 0 && 0 !in faults && 1 !in faults && 2 !in faults && 3 !in faults then
        var a := old(db.accounts)[w[0]];
        db.accounts == old(db.accounts)[w[0] := Accrue(a, rates, now)] &&
        db.ledger == old(db.ledger) + [InterestEntry(|old(db.ledger)| + 1, a, rates)]
      else
        db.accounts == old(db.accounts) && db.ledger == old(db.ledger)
  {
    if 0 in faults {
      return;  // "Error finding accounts"
    }
    var snapshot := db.accounts;
    ghost var ledger0 := db.ledger;
    var selected := Window(snapshot, now, db.nextAccountId);
    if |selected| == 0 {
      return;  // "No accounts found for interest application."
    }
    ghost var first := snapshot[selected[0]];
    ghost var committed := 1 !in faults && 2 !in faults && 3 !in faults;
    assert first.id == selected[0];
    var tx := new Handle.Begin(db);
    for i := 0 to |selected|
      invariant tx.Valid() && tx.db == db
      invariant db.nextAccountId == old(db.nextAccountId)
      invariant tx.accounts.Keys == snapshot.Keys
      invariant i == 0 ==>
        tx.state == Open && db.accounts == snapshot && db.ledger == ledger0 &&
        tx.accounts == snapshot && tx.ledger == ledger0
      invariant i > 0 ==> tx.state != Open
      invariant i > 0 && committed ==>
        db.accounts == snapshot[first.id := Accrue(first, rates, now)] &&
        db.ledger == ledger0 + [InterestEntry(|ledger0| + 1, first, rates)]
      invariant i > 0 && !committed ==> db.accounts == snapshot && db.ledger == ledger0
    {
      var stop, _ := ApplyToAccount(tx, snapshot[selected[i]], rates, now, 3 * i + 1, faults);
      if stop {
        return;
      }
    }
  }

  // ---------------------------------------------------------------------------
  // The batch as evidently intended: one transaction per account

  /** `accounts` after every account listed in `ids` has had its interest applied
      once, from the balances in `accounts`. */
  function AccrueAll(accounts: map<nat, Account>, ids: seq<nat>, rates: map<string, real>, now: Time)
    : (r: map<nat, Account>)
    requires forall k :: 0 <= k < |ids| ==> ids[k] in accounts
    ensures r.Keys == accounts.Keys
    ensures forall id :: id in accounts ==>
      r[id] == if id in ids then Accrue(accounts[id], rates, now) else accounts[id]
  {
    map id | id in accounts :: if id in ids then Accrue(accounts[id], rates, now) else accounts[id]
  }

  /** The interest entries for the accounts `ids`, in that order, keyed from `key`. */
  function InterestEntries(key: nat, accounts: map<nat, Account>, ids: seq<nat>, rates: map<string, real>)
    : (r: seq<Entry>)
    requires forall k :: 0 <= k < |ids| ==> ids[k] in accounts
    ensures |r| == |ids|
    ensures forall k :: 0 <= k < |ids| ==> r[k] == InterestEntry(key + k, accounts[ids[k]], rates)
  {
    seq(|ids|, k requires 0 <= k < |ids| => InterestEntry(key + k, accounts[ids[k]], rates))
  }

  /** Applying one more account of `ids` to the first `k` applied updates that account alone. */
  lemma AccrueAllStep(accounts: map<nat, Account>, ids: seq<nat>, k: nat, rates: map<string, real>, now: Time,
                      before: map<nat, Account>, after: map<nat, Account>)
    requires forall j :: 0 <= j < |ids| ==> ids[j] in accounts
    requires k < |ids|
    requires before == AccrueAll(accounts, ids[..k], rates, now)
    requires after == before[ids[k] := Accrue(accounts[ids[k]], rates, now)]
    ensures after == AccrueAll(accounts, ids[..k + 1], rates, now)
  {
    assert ids[..k + 1][..k] == ids[..k];
  }

  /** Applying one more account of `ids` appends its entry under the next key. */
  lemma InterestEntriesStep(key: nat, accounts: map<nat, Account>, ids: seq<nat>, k: nat, rates: map<string, real>)
    requires forall j :: 0 <= j < |ids| ==> ids[j] in accounts
    requires k < |ids|
    ensures InterestEntries(key, accounts, ids[..k + 1], rates)
         == InterestEntries(key, accounts, ids[..k], rates) + [InterestEntry(key + k, accounts[ids[k]], rates)]
  {
    assert ids[..k + 1][..k] == ids[..k];
  }

  /** A ledger holding the entries of the first `k` accounts of `ids`, extended by
      the next account's entry under the next key, holds those of the first `k + 1`. */
  lemma LedgerStep(ledger0: seq<Entry>, accounts: map<nat, Account>, ids: seq<nat>, k: nat,
                   rates: map<string, real>, before: seq<Entry>, after: seq<Entry>)
    requires forall j :: 0 <= j < |ids| ==> ids[j] in accounts
    requires k < |ids|
    requires before == ledger0 + InterestEntries(|ledger0| + 1, accounts, ids[..k], rates)
    requires after == before + [InterestEntry(|before| + 1, accounts[ids[k]], rates)]
    ensures after == ledger0 + InterestEntries(|ledger0| + 1, accounts, ids[..k + 1], rates)
  {
    var entries := InterestEntries(|ledger0| + 1, accounts, ids[..k], rates);
    InterestEntriesStep(|ledger0| + 1, accounts, ids, k, rates);
    assert |before| + 1 == |ledger0| + 1 + k;
    assert after == ledger0 + (entries + [InterestEntry(|ledger0| + 1 + k, accounts[ids[k]], rates)]);
  }

  /** After a window has been applied in full, none of its accounts is eligible again that year. */
  lemma AppliedWindowLeavesNothingEligible(accounts: map<nat, Account>, ids: seq<nat>, rates: map<string, real>,
                                           now: Time)
    requires ValidTime(now)
    requires forall k :: 0 <= k < |ids| ==> ids[k] in accounts
    ensures forall k :: 0 <= k < |ids| ==>
      !Eligible(AccrueAll(accounts, ids, rates, now)[ids[k]].lastInterest, now)
  {
  }

  /** `ApplyToAccount` on a handle begun for this account alone. */
  method ApplyInOwnTransaction(db: Db, acc: Account, rates: map<string, real>, now: Time, step: nat, faults: set<nat>)
    returns (committed: bool)
    requires db.Valid() && acc.id in db.accounts
    modifies db
    ensures db.Valid() && db.nextAccountId == old(db.nextAccountId)
    ensures committed == (step !in faults && step + 1 !in faults && step + 2 !in faults)
    ensures if committed then
              db.accounts == old(db.accounts)[acc.id := Accrue(acc, rates, now)] &&
              db.ledger == old(db.ledger) + [InterestEntry(|old(db.ledger)| + 1, acc, rates)]
            else
              db.accounts == old(db.accounts) && db.ledger == old(db.ledger)
  {
    var tx := new Handle.Begin(db);
    var _, ok := ApplyToAccount(tx, acc, rates, now, step, faults);
    committed := ok;
  }

  /** One pass of the per-account loop: `ids[k]` in a transaction of its own, whose
      commit extends the applied prefix of `ids` by one account. */
  method ApplyNext(db: Db, snapshot: map<nat, Account>, ghost ledger0: seq<Entry>, ids: seq<nat>, k: nat,
                   rates: map<string, real>, now: Time, faults: set<nat>)
    returns (committed: bool)
    requires db.Valid() && k < |ids|
    requires forall j :: 0 <= j < |ids| ==> ids[j] in snapshot && snapshot[ids[j]].id == ids[j]
    requires db.accounts == AccrueAll(snapshot, ids[..k], rates, now)
    requires db.ledger == ledger0 + InterestEntries(|ledger0| + 1, snapshot, ids[..k], rates)
    modifies db
    ensures db.Valid() && db.nextAccountId == old(db.nextAccountId)
    ensures committed == (3 * k + 1 !in faults && 3 * k + 2 !in faults && 3 * k + 3 !in faults)
    ensures committed ==>
      db.accounts == AccrueAll(snapshot, ids[..k + 1], rates, now) &&
      db.ledger == ledger0 + InterestEntries(|ledger0| + 1, snapshot, ids[..k + 1], rates)
    ensures !committed ==> db.accounts == old(db.accounts) && db.ledger == old(db.ledger)
  {
    var id := ids[k];
    ghost var accountsBefore, ledgerBefore := db.accounts, db.ledger;
    committed := ApplyInOwnTransaction(db, snapshot[id], rates, now, 3 * k + 1, faults);
    if committed {
      AccrueAllStep(snapshot, ids, k, rates, now, accountsBefore, db.accounts);
      LedgerStep(ledger0, snapshot, ids, k, rates, ledgerBefore, db.ledger);
    }
  }

  /** The batch with a transaction of its own per account, as intended: the
      window is processed in order, each account committed before the next
      begins, and the first rejected call stops the batch with that account's
      update discarded. `processed` is how many accounts were committed. */
  method ApplyInterestBatchPerAccount(db: Db, now: Time, rates: map<string, real>, faults: set<nat>)
    returns (processed: nat)
    requires db.Valid()
    modifies db
    ensures db.Valid() && db.nextAccountId == old(db.nextAccountId)
    ensures var w := Window(old(db.accounts), now, old(db.nextAccountId));
      processed <= |w| &&
      db.accounts == AccrueAll(old(db.accounts), w[..processed], rates, now) &&
      db.ledger == old(db.ledger) + InterestEntries(|old(db.ledger)| + 1, old(db.accounts), w[..processed], rates) &&
      (0 in faults ==> processed == 0) &&
      (processed == |w| || 0 in faults ||
       3 * processed + 1 in faults || 3 * processed + 2 in faults || 3 * processed + 3 in faults)
  {
    var snapshot := db.accounts;
    ghost var ledger0 := db.ledger;
    var selected := Window(snapshot, now, db.nextAccountId);
    processed := 0;
    if 0 in faults {
      assert selected[..0] == [];
      return;
    }
    while processed < |selected|
      invariant processed <= |selected|
      invariant db.Valid() && db.nextAccountId == old(db.nextAccountId)
      invariant db.accounts == AccrueAll(snapshot, selected[..processed], rates, now)
      invariant db.ledger == ledger0 + InterestEntries(|ledger0| + 1, snapshot, selected[..processed], rates)
    {
      var committed := ApplyNext(db, snapshot, ledger0, selected, processed, rates, now, faults);
      if !committed {
        return;
      }
      processed := processed + 1;
    }
  }
}
