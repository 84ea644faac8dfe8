/** The records of the bank's database (accounts and ledger entries), the
    error kinds the handlers report, and the queries the handlers issue
    against the accounts table. */
module Models {
  import opened Calendar

  datatype Option<+T> = None | Some(value: T)

  datatype Result<+T, +E> = Ok(value: T) | Err(error: E)

  /** Every error a handler or the batch can end with; the comment gives the
      message the service reports. */
  datatype Error =
    | InvalidInput               // "Invalid input"
    | SourceNotFound             // "Source account not found"
    | DestinationNotFound        // "Destination account not found"
    | InsufficientSourceBalance  // "Insufficient balance in source account"
    | AccountNotFound            // "Account not found"
    | InsufficientBalance        // "Insufficient balance"
    | SourceUpdateFailed         // "Failed to update source account balance"
    | DestinationUpdateFailed    // "Failed to update destination account balance"
    | AccountUpdateFailed        // "Failed to update account balance"
    | StorageFailed              // the database's own error (insert or commit)
    | AccountCreateFailed        // "Failed to create account"
    | TransactionNotFound        // "Transaction not found"
    | AccessDenied               // "Access denied"

  /** What a state-changing handler reports: success, or why not. */
  datatype Outcome = Done | Fail(error: Error)

  /** A row of the accounts table. `lastInterest` is the nullable
      `last_interest_applied_at` column the interest job reads and writes. */
  datatype Account = Account(
    id: nat,
    userId: nat,
    balance: real,
    kind: string,
    currency: string,
    lastInterest: Option<Time>)

  /** The `type` column of a ledger entry. */
  datatype Kind = Transfer | Withdraw | Deposit | Interest

  /** A row of the transactions table: the append-only ledger. */
  datatype Entry = Entry(
    id: nat,
    from: Option<nat>,
    to: Option<nat>,
    amount: real,
    kind: Kind,
    description: string)

  /** The consistency the database keeps: accounts are stored under their own
      primary key, below the next key to be handed out, and ledger entries carry
      ascending keys 1, 2, 3, ... in insertion (creation) order. */
  predicate WellFormed(accounts: map<nat, Account>, ledger: seq<Entry>, nextAccountId: nat) {
    (forall id :: id in accounts ==> accounts[id].id == id && id < nextAccountId) &&
    (forall i :: 0 <= i < |ledger| ==> ledger[i].id == i + 1)
  }

  /** In a consistent database the next account key is unused, and ledger keys
      strictly increase in insertion order, so no two entries share a key. */
  lemma WellFormedKeys(accounts: map<nat, Account>, ledger: seq<Entry>, nextAccountId: nat)
    requires WellFormed(accounts, ledger, nextAccountId)
    ensures nextAccountId !in accounts
    ensures forall i, j :: 0 <= i < j < |ledger| ==> ledger[i].id < ledger[j].id
  {
  }

  /** `Where("id = ?", id).First(&acc)`. */
  function FindById(accounts: map<nat, Account>, id: nat): (r: Option<Account>)
    ensures r.Some? <==> id in accounts
    ensures r.Some? ==> r.value == accounts[id]
  {
    if id in accounts then Some(accounts[id]) else None
  }

  /** `Where("id = ? AND user_id = ?", id, user).First(&acc)`: the one
      ownership check every handler uses. */
  function FindOwned(accounts: map<nat, Account>, id: nat, user: nat): (r: Option<Account>)
    ensures r.Some? <==> id in accounts && accounts[id].userId == user
    ensures r.Some? ==> r.value == accounts[id]
  {
    match FindById(accounts, id)
    case Some(a) => if a.userId == user then Some(a) else None
    case None => None
  }

  function Min(a: int, b: int): int {
    if a <= b then a else b
  }

  /** `.Limit(limit).Offset(offset)` applied to an ordered result: the rows at
      positions `offset .. offset + limit - 1`, as far as they exist. */
  function Page<T>(s: seq<T>, offset: nat, limit: nat): (r: seq<T>)
    ensures |r| == if offset >= |s| then 0 else Min(limit, |s| - offset)
    ensures forall k :: 0 <= k < |r| ==> r[k] == s[offset + k]
  {
    if offset >= |s| then [] else s[offset .. Min(offset + limit, |s|)]
  }

  /** Two consecutive pages together are the page that spans both. */
  lemma PagesTile<T>(s: seq<T>, offset: nat, a: nat, b: nat)
    ensures Page(s, offset, a) + Page(s, offset + a, b) == Page(s, offset, a + b)
  {
    if offset + a < |s| {
      assert s[offset .. offset + a] + s[offset + a .. Min(offset + a + b, |s|)]
          == s[offset .. Min(offset + a + b, |s|)];
    }
  }

  /** The balance held under `id`, zero if there is no such account. */
  function BalanceOf(accounts: map<nat, Account>, id: nat): real {
    if id in accounts then accounts[id].balance else 0.0
  }

  /** The money held by the accounts whose keys are below `bound`. */
  function Total(accounts: map<nat, Account>, bound: nat): real
    decreases bound
  {
    if bound == 0 then 0.0 else Total(accounts, bound - 1) + BalanceOf(accounts, bound - 1)
  }

  /** Replacing one row changes the total by exactly that row's change in balance. */
  lemma {:induction false} TotalUpdate(accounts: map<nat, Account>, id: nat, a: Account, bound: nat)
    ensures Total(accounts[id := a], bound)
         == Total(accounts, bound) + (if id < bound then a.balance - BalanceOf(accounts, id) else 0.0)
    decreases bound
  {
    if bound > 0 {
      TotalUpdate(accounts, id, a, bound - 1);
    }
  }

  /** The number a string of decimal digits denotes, most significant digit first. */
  function DigitsValue(s: string): int
    decreases |s|
  {
    if |s| == 0 then 0 else 10 * DigitsValue(s[..|s| - 1]) + (s[|s| - 1] as int - '0' as int)
  }

  /** Decimal digits of an identifier, as `fmt.Sprint` writes an unsigned integer. */
  function NatToString(n: nat): (s: string)
    ensures |s| >= 1
    ensures forall i :: 0 <= i < |s| ==> '0' <= s[i] <= '9'
    ensures n < 10 <==> |s| == 1
    ensures DigitsValue(s) == n
    decreases n
  {
    var digit := (('0' as int) + n % 10) as char;
    if n < 10 then [digit]
    else
      var prefix := NatToString(n / 10);
      assert (prefix + [digit])[..|prefix|] == prefix;
      prefix + [digit]
  }

  /** The length of the run of decimal digits a string starts with. */
  function DigitRun(s: string): nat
    decreases |s|
  {
    if |s| == 0 || !('0' <= s[0] <= '9') then 0 else 1 + DigitRun(s[1..])
  }

  /** Digits followed by a non-digit: the run is exactly the digits. */
  lemma {:induction false} DigitRunOf(a: string, rest: string)
    requires forall i :: 0 <= i < |a| ==> '0' <= a[i] <= '9'
    requires |rest| > 0 && !('0' <= rest[0] <= '9')
    ensures DigitRun(a + rest) == |a|
    decreases |a|
  {
    if |a| > 0 {
      assert (a + rest)[1..] == a[1..] + rest;
      DigitRunOf(a[1..], rest);
    }
  }

  /** A string of digits, a separator starting with a non-digit, and a rest can be
      taken apart again: the digits end where the separator begins. */
  lemma DigitsSplit(a: string, sep: string, b: string, a': string, b': string)
    requires forall i :: 0 <= i < |a| ==> '0' <= a[i] <= '9'
    requires forall i :: 0 <= i < |a'| ==> '0' <= a'[i] <= '9'
    requires |sep| > 0 && !('0' <= sep[0] <= '9')
    requires a + sep + b == a' + sep + b'
    ensures a == a' && b == b'
  {
    var s := a + sep + b;
    assert s == a + (sep + b) && s == a' + (sep + b');
    DigitRunOf(a, sep + b);
    DigitRunOf(a', sep + b');
    assert a == s[..|a|] && a' == s[..|a'|];
    assert b == s[|a| + |sep|..] && b' == s[|a'| + |sep|..];
  }

  /** Equal strings with a common beginning agree after it. */
  lemma PrefixCancel(p: string, x: string, y: string)
    requires p + x == p + y
    ensures x == y
  {
    assert x == (p + x)[|p|..];
    assert y == (p + y)[|p|..];
  }

  /** Different identifiers are written differently. */
  lemma NatToStringInjective(a: nat, b: nat)
    ensures NatToString(a) == NatToString(b) ==> a == b
  {
  }
}
