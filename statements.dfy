/**
 * The `Statement` dataclass of read.py: built from a document's page
 * texts, it fills its fields one after the other in `__post_init__`
 * (gate, issue date, headers, accounts, transactions, then the account
 * join), and raises at the first step that fails.
 */
module Statements {
  import opened Wrappers
  import opened Errors
  import opened Gate
  import opened Headers
  import opened Accounts
  import opened Transactions
  import opened Matching

  /** `"".join(pages)`: the page texts one after the other. */
  function Concat(pages: seq<string>): (r: string)
    ensures forall k :: 0 <= k < |pages| ==> |pages[k]| <= |r|
    ensures pages != [] ==> r[..|pages[0]|] == pages[0]
  {
    if pages == [] then "" else pages[0] + Concat(pages[1..])
  }

  /**
   * The transactions table: as scanned, with its amounts converted, and
   * after `match_transactions_with_accounts` has joined the accounts in.
   */
  datatype Table = Scanned(scanned: seq<Transaction>) | Joined(joined: seq<Row>)

  /** What a successful construction holds in its fields. */
  datatype Parsed = Parsed(emissionDate: Date, headers: seq<string>, accounts: seq<Account>, rows: seq<Row>)

  /**
   * The outcome of constructing a statement from `pages`: the first error
   * raised, in the order `__post_init__` runs its steps, or its fields.
   * The join fails when there are transactions but no account header:
   * `idxmin` then reduces a table without any column.
   */
  function ParseStatement(pages: seq<string>, parseDate: string -> Option<Date>): (r: Result<Parsed, ParseError>)
    ensures r == Failure(NoPages) <==> pages == []
    ensures r == Failure(NotAStatement) <==> pages != [] && !HasMarkerLine(pages[0])
    ensures pages != [] && HasMarkerLine(pages[0]) && EmissionDate(pages[0], parseDate).Failure? ==>
      r == Failure(EmissionDate(pages[0], parseDate).error)
    ensures pages != [] && HasMarkerLine(pages[0]) && EmissionDate(pages[0], parseDate).Success? ==>
      (r == Failure(NoHeaders) <==> TransactionHeaders(pages[0]).Failure?)
    ensures r == Failure(NoAccounts) <==>
      && pages != [] && HasMarkerLine(pages[0])
      && EmissionDate(pages[0], parseDate).Success? && TransactionHeaders(pages[0]).Success?
      && AccountsStartPos(Concat(pages)) == [] && AllTransactions(Concat(pages)) != []
    ensures r.Success? <==>
      && pages != [] && HasMarkerLine(pages[0])
      && EmissionDate(pages[0], parseDate).Success? && TransactionHeaders(pages[0]).Success?
      && (AccountsStartPos(Concat(pages)) == [] ==> AllTransactions(Concat(pages)) == [])
    ensures r.Success? ==>
      && EmissionDate(pages[0], parseDate) == Success(r.value.emissionDate)
      && TransactionHeaders(pages[0]) == Success(r.value.headers)
      && r.value.headers[0] == "Date"
      && r.value.accounts == AccountsStartPos(Concat(pages))
      && r.value.rows == MatchedRows(AllTransactions(Concat(pages)), r.value.accounts)
  {
    if pages == [] then Failure(NoPages)
    else if !IsStatement(pages[0]) then Failure(NotAStatement)
    else
      match EmissionDate(pages[0], parseDate)
      case Failure(e) => Failure(e)
      case Success(date) =>
        match TransactionHeaders(pages[0])
        case Failure(e) => Failure(e)
        case Success(headers) =>
          var text := Concat(pages);
          var accounts := AccountsStartPos(text);
          var txs := AllTransactions(text);
          if accounts == [] && txs != [] then Failure(NoAccounts)
          else Success(Parsed(date, headers, accounts, MatchedRows(txs, accounts)))
  }

  /**
   * The module-level `get_emission_date` answers `None` for exactly the
   * documents whose construction stops at the gate, and otherwise reads
   * the same date as a constructed statement.
   */
  lemma ModuleLevelDateAgrees(pages: seq<string>, parseDate: string -> Option<Date>)
    requires pages != []
    ensures GetEmissionDate(pages[0], parseDate) == Success(None) <==>
      ParseStatement(pages, parseDate) == Failure(NotAStatement)
    ensures ParseStatement(pages, parseDate).Success? ==>
      GetEmissionDate(pages[0], parseDate) == Success(Some(ParseStatement(pages, parseDate).value.emissionDate))
  {
  }

  /** Past the gate, the date and the headers, the outcome is the join's. */
  lemma OutcomeAfterHeaders(pages: seq<string>, parseDate: string -> Option<Date>)
    requires pages != [] && IsStatement(pages[0])
    requires EmissionDate(pages[0], parseDate).Success? && TransactionHeaders(pages[0]).Success?
    ensures var accts := AccountsStartPos(Concat(pages));
      var txs := AllTransactions(Concat(pages));
      ParseStatement(pages, parseDate) ==
        if accts == [] && txs != [] then Failure(NoAccounts)
        else Success(Parsed(EmissionDate(pages[0], parseDate).value, TransactionHeaders(pages[0]).value,
          accts, MatchedRows(txs, accts)))
  {
  }

  /** The join of one more transaction is the join so far and one more row. */
  lemma MatchedRowsSnoc(txs: seq<Transaction>, accounts: seq<Account>, i: nat)
    requires i < |txs|
    ensures MatchedRows(txs[..i + 1], accounts) == MatchedRows(txs[..i], accounts) + [Attach(txs[i], accounts)]
  {
    var a := MatchedRows(txs[..i + 1], accounts);
    var b := MatchedRows(txs[..i], accounts) + [Attach(txs[i], accounts)];
    assert |a| == |b|;
    forall k | 0 <= k < |a| ensures a[k] == b[k] {
      if k < i {
        assert txs[..i + 1][k] == txs[..i][k];
      }
    }
  }

  class Statement {
    const pages: seq<string>
    var emissionDate: Option<Date>
    var headers: Option<seq<string>>
    var accounts: Option<seq<Account>>
    var transactions: Option<Table>

    /** No field but `pages` is set yet. */
    predicate Unset()
      reads this
    {
      emissionDate.None? && headers.None? && accounts.None? && transactions.None?
    }

    /** The fields hold what a successful construction computes. */
    predicate Holds(p: Parsed)
      reads this
    {
      && emissionDate == Some(p.emissionDate)
      && headers == Some(p.headers)
      && accounts == Some(p.accounts)
      && transactions == Some(Joined(p.rows))
    }

    /** The dataclass's generated `__init__`, the page texts already extracted. */
    constructor(pages: seq<string>)
      ensures this.pages == pages && Unset()
    {
      this.pages := pages;
      emissionDate := None;
      headers := None;
      accounts := None;
      transactions := None;
    }

    /**
     * `__post_init__`: the steps in order, each filling its field, the first
     * failure ending the construction with the fields set so far. A page set
     * that fails the gate leaves every field unset, so no transaction is
     * ever produced for it.
     */
    method PostInit(parseDate: string -> Option<Date>) returns (err: Option<ParseError>)
      requires Unset()
      modifies this
      ensures ParseStatement(pages, parseDate).Success? ==>
        err == None && Holds(ParseStatement(pages, parseDate).value)
      ensures ParseStatement(pages, parseDate).Failure? ==>
        err == Some(ParseStatement(pages, parseDate).error)
      ensures err == Some(NoPages) || err == Some(NotAStatement) ==> Unset()
      ensures err == Some(NoEmissionDate) || err == Some(BadEmissionDate) ==> Unset()
      ensures err == Some(NoHeaders) ==>
        && emissionDate == Some(EmissionDate(pages[0], parseDate).value)
        && headers.None? && accounts.None? && transactions.None?
      ensures err == Some(NoAccounts) ==>
        && emissionDate == Some(EmissionDate(pages[0], parseDate).value)
        && headers == Some(TransactionHeaders(pages[0]).value)
        && accounts == Some([])
        && transactions == Some(Scanned(AllTransactions(Concat(pages))))
    {
      ghost var outcome := ParseStatement(pages, parseDate);
      if pages == [] {
        return Some(NoPages);
      }
      if !IsStatement(pages[0]) {
        return Some(NotAStatement);
      }
      var date := EmissionDate(pages[0], parseDate);
      if date.Failure? {
        assert outcome == Failure(date.error);
        return Some(date.error);
      }
      emissionDate := Some(date.value);
      var found := TransactionHeaders(pages[0]);
      if found.Failure? {
        assert outcome == Failure(NoHeaders);
        return Some(found.error);
      }
      headers := Some(found.value);
      var text := Concat(pages);
      var accts := AccountsStartPos(text);
      var txs := AllTransactions(text);
      OutcomeAfterHeaders(pages, parseDate);
      accounts := Some(accts);
      transactions := Some(Scanned(txs));
      err := MatchTransactionsWithAccounts();
    }

    /**
     * `match_transactions_with_accounts`: for each transaction, a pass over
     * the accounts keeps the nearest one starting at or before it, and the
     * table becomes the join, nothing else changing. With transactions but
     * no account, `idxmin` has no column to choose from and raises before
     * any field changes.
     */
    method MatchTransactionsWithAccounts() returns (err: Option<ParseError>)
      requires transactions.Some? && transactions.value.Scanned? && accounts.Some?
      modifies this
      ensures emissionDate == old(emissionDate)
      ensures headers == old(headers) && accounts == old(accounts)
      ensures err.Some? <==> accounts.value == [] && old(transactions).value.scanned != []
      ensures err.Some? ==> err == Some(NoAccounts) && transactions == old(transactions)
      ensures err.None? ==>
        transactions == Some(Joined(MatchedRows(old(transactions).value.scanned, accounts.value)))
    {
      var txs := transactions.value.scanned;
      var accts := accounts.value;
      if accts == [] && txs != [] {
        return Some(NoAccounts);
      }
      var rows: seq<Row> := [];
      var i := 0;
      while i < |txs|
        invariant 0 <= i <= |txs|
        invariant rows == MatchedRows(txs[..i], accts)
        invariant unchanged(this)
      {
        var best := NearestAccount(accts, txs[i].start);
        assert WithAccount(txs[i], accts, best) == Attach(txs[i], accts);
        MatchedRowsSnoc(txs, accts, i);
        rows := rows + [WithAccount(txs[i], accts, best)];
        i := i + 1;
      }
      assert txs[..i] == txs;
      transactions := Some(Joined(rows));
      return None;
    }

    /**
     * `idxmin` over one row of the match table: a pass over the accounts
     * keeping the nearest one starting at or before `t`, the first of equals.
     */
    static method NearestAccount(accts: seq<Account>, t: nat) returns (best: Option<nat>)
      ensures best == NearestIn(accts, t, |accts|)
    {
      best := None;
      var j := 0;
      while j < |accts|
        invariant 0 <= j <= |accts|
        invariant best == NearestIn(accts, t, j)
      {
        assert NearestIn(accts, t, j + 1) == if Improves(accts, t, best, j) then Some(j) else best;
        if Improves(accts, t, best, j) {
          best := Some(j);
        }
        j := j + 1;
      }
    }

    /**
     * `Statement(pdf=…)`: construction followed by `__post_init__`; the
     * statement when every step succeeds, otherwise the error raised.
     */
    static method Create(pages: seq<string>, parseDate: string -> Option<Date>)
      returns (r: Result<Statement, ParseError>)
      ensures ParseStatement(pages, parseDate).Failure? ==>
        r == Failure(ParseStatement(pages, parseDate).error)
      ensures ParseStatement(pages, parseDate).Success? ==>
        && r.Success? && fresh(r.value) && r.value.pages == pages
        && r.value.Holds(ParseStatement(pages, parseDate).value)
    {
      var s := new Statement(pages);
      var err := s.PostInit(parseDate);
      if err.Some? {
        return Failure(err.value);
      }
      return Success(s);
    }
  }
}
