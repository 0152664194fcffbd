/**
 * Attaching to each transaction the account it belongs to (read.py,
 * `match_transactions_with_accounts`): the account whose header starts
 * nearest before the transaction, found as the `idxmin` of the
 * non-negative differences `t - a`, then joined in as name and id.
 */
module Matching {
  import opened Wrappers
  import opened Accounts
  import opened Transactions

  /**
   * A row of the joined table: the transaction's columns and the matched
   * account's name and id, both missing (`NaN` in the source) when no
   * account header precedes the transaction.
   */
  datatype Row = Row(
    start: nat, date: string, name: string, amount: nat,
    accountName: Option<string>, accountId: Option<string>)

  /**
   * `idxmin` of `t - a` over the first `n` accounts, negative differences
   * discarded: the index of the account starting nearest before `t` (the
   * first of equals), none when no account starts at or before `t`.
   */
  function NearestIn(accounts: seq<Account>, t: nat, n: nat): (r: Option<nat>)
    requires n <= |accounts|
    ensures r.Some? ==>
      && r.value < n && accounts[r.value].start <= t
      && (forall k :: 0 <= k < n && accounts[k].start <= t ==>
            t - accounts[r.value].start <= t - accounts[k].start)
      && (forall k :: 0 <= k < r.value && accounts[k].start <= t ==>
            t - accounts[r.value].start < t - accounts[k].start)
    ensures r.None? <==> forall k :: 0 <= k < n ==> t < accounts[k].start
  {
    if n == 0 then None
    else
      var prev := NearestIn(accounts, t, n - 1);
      if Improves(accounts, t, prev, n - 1) then Some(n - 1) else prev
  }

  /** Account `j` is a candidate for `t` and strictly nearer than the best so far. */
  predicate Improves(accounts: seq<Account>, t: nat, best: Option<nat>, j: nat)
    requires j < |accounts|
    requires best.Some? ==> best.value < |accounts|
  {
    accounts[j].start <= t && (best.None? || accounts[best.value].start < accounts[j].start)
  }

  /** The transaction's columns, with the name and id of account `nearest` when there is one. */
  function WithAccount(tx: Transaction, accounts: seq<Account>, nearest: Option<nat>): Row
    requires nearest.Some? ==> nearest.value < |accounts|
  {
    match nearest
    case None => Row(tx.start, tx.date, tx.name, tx.amount, None, None)
    case Some(k) => Row(tx.start, tx.date, tx.name, tx.amount, Some(accounts[k].name), Some(accounts[k].id))
  }

  /**
   * One row of the join: the transaction's columns unchanged, plus the
   * name and id of an account starting at or before it with no candidate
   * starting later, or both missing when every account starts after it.
   */
  function Attach(tx: Transaction, accounts: seq<Account>): (r: Row)
    ensures r.start == tx.start && r.date == tx.date && r.name == tx.name && r.amount == tx.amount
    ensures r.accountName.None? <==> r.accountId.None?
    ensures r.accountName.None? <==> forall k :: 0 <= k < |accounts| ==> tx.start < accounts[k].start
    ensures r.accountName.Some? ==>
      exists k :: 0 <= k < |accounts| && accounts[k].start <= tx.start
        && (forall l :: 0 <= l < |accounts| && accounts[l].start <= tx.start ==> accounts[l].start <= accounts[k].start)
        && r.accountName == Some(accounts[k].name) && r.accountId == Some(accounts[k].id)
  {
    WithAccount(tx, accounts, NearestIn(accounts, tx.start, |accounts|))
  }

  /**
   * The joined table: as many rows as transactions, in the same order,
   * each the transaction with its account attached.
   */
  function MatchedRows(txs: seq<Transaction>, accounts: seq<Account>): (r: seq<Row>)
    ensures |r| == |txs|
    ensures forall k :: 0 <= k < |r| ==>
      r[k].start == txs[k].start && r[k].date == txs[k].date
      && r[k].name == txs[k].name && r[k].amount == txs[k].amount
    ensures forall k :: 0 <= k < |r| ==> r[k] == Attach(txs[k], accounts)
  {
    seq(|txs|, k requires 0 <= k < |txs| => Attach(txs[k], accounts))
  }

  /** The accounts' start offsets strictly increase, as the header scan records them. */
  predicate Increasing(accounts: seq<Account>) {
    forall k, l :: 0 <= k < l < |accounts| ==> accounts[k].start < accounts[l].start
  }

  /**
   * With increasing offsets, the account matched to a transaction at `t` is
   * the last one starting at or before `t`: account `k` is chosen exactly
   * when it starts at or before `t` and the next one, if any, after `t`.
   */
  lemma NearestIsLastPreceding(accounts: seq<Account>, t: nat, k: nat)
    requires Increasing(accounts)
    requires k < |accounts|
    ensures NearestIn(accounts, t, |accounts|) == Some(k) <==>
      accounts[k].start <= t && (k + 1 == |accounts| || t < accounts[k + 1].start)
  {
    var r := NearestIn(accounts, t, |accounts|);
    if accounts[k].start <= t && (k + 1 == |accounts| || t < accounts[k + 1].start) {
      assert r.Some?;
      assert accounts[r.value].start <= accounts[k].start;
      assert r.value <= k;
    }
  }

  /** The scanned accounts always meet `Increasing`. */
  lemma ScannedAccountsIncrease(text: string)
    ensures Increasing(AccountsStartPos(text))
  {
    AccountStartsIncrease(text, 0);
  }

  const ExampleAccounts: seq<Account> := [Account(100, "A", "1"), Account(500, "B", "2")]

  /**
   * Accounts at offsets 100 and 500: a transaction at 450 goes to the
   * first, one at 500 to the second, and one at 50 gets no account.
   */
  lemma MatchingExample()
    ensures NearestIn(ExampleAccounts, 450, 2) == Some(0)
    ensures NearestIn(ExampleAccounts, 500, 2) == Some(1)
    ensures NearestIn(ExampleAccounts, 50, 2) == None
  {
    NearestIsLastPreceding(ExampleAccounts, 450, 0);
    NearestIsLastPreceding(ExampleAccounts, 500, 1);
  }
}
