/**
 * The column headers of the transaction table on the first page (read.py,
 * `Statement.get_transactions_headers` and the module-level
 * `get_transactions_headers`). Both take, with DOTALL and a greedy `.*`,
 * the text between an opening marker and `\nAncien solde`, and split it at
 * line breaks.
 */
module Headers {
  import opened Text
  import opened Wrappers
  import opened Errors

  /** `\nDate\nOpération`: the line break is outside the captured group. */
  const DateOpening: string := "\nDate\nOpération"
  /** `Vos opérations\n`, outside the captured group. */
  const YourOperations: string := "Vos opérations\n"
  /** `\nAncien solde`, outside the captured group. */
  const OldBalance: string := "\nAncien solde"

  /** The first occurrence of `lit` at or after `i`. */
  function FirstAt(s: string, lit: string, i: nat): (r: Option<nat>)
    requires i <= |s|
    ensures r.Some? ==>
      i <= r.value && At(s, r.value, lit) && forall m :: i <= m < r.value ==> !At(s, m, lit)
    ensures r.None? ==> forall m :: i <= m ==> !At(s, m, lit)
    decreases |s| - i
  {
    if At(s, i, lit) then Some(i)
    else if i == |s| then None
    else FirstAt(s, lit, i + 1)
  }

  /** The last occurrence of `lit` starting below `n`. */
  function LastAt(s: string, lit: string, n: nat): Option<nat>
  {
    if n == 0 then None
    else if At(s, n - 1, lit) then Some(n - 1)
    else LastAt(s, lit, n - 1)
  }

  /** `LastAt` finds an occurrence with none after it below `n`, or there is none below `n`. */
  lemma {:induction false} LastAtSpec(s: string, lit: string, n: nat)
    ensures LastAt(s, lit, n).Some? ==>
      var k := LastAt(s, lit, n).value;
      k < n && At(s, k, lit) && forall m :: k < m < n ==> !At(s, m, lit)
    ensures LastAt(s, lit, n).None? ==> forall m: nat :: m < n ==> !At(s, m, lit)
  {
    if n > 0 && !At(s, n - 1, lit) {
      LastAtSpec(s, lit, n - 1);
    }
  }

  /**
   * Where `open(.*)close` with DOTALL first matches: from the first `open`
   * to the last `close` that begins after it; none when no `close` begins
   * after an `open`.
   */
  function GreedySpan(s: string, open: string, close: string): (r: Option<(nat, nat)>)
    ensures r.Some? ==>
      var (i, k) := r.value;
      && At(s, i, open) && At(s, k, close) && i + |open| <= k
      && (forall m: nat :: m < i ==> !At(s, m, open))
      && (forall m: nat :: k < m ==> !At(s, m, close))
    ensures r.None? <==>
      forall i: nat, k: nat :: At(s, i, open) && At(s, k, close) ==> k < i + |open|
  {
    LastAtSpec(s, close, |s| + 1);
    match FirstAt(s, open, 0)
    case None => None
    case Some(i) =>
      match LastAt(s, close, |s| + 1)
      case None => None
      case Some(k) => if i + |open| <= k then Some((i, k)) else None
  }

  /** The captured block after `\nDate\nOpération` starts with `"Date\n"`. */
  lemma DateBlockStart(page: string, i: nat, k: nat)
    requires At(page, i, DateOpening) && i + |DateOpening| <= k <= |page|
    ensures |page[i + 1..k]| >= 5 && page[i + 1..k][..5] == "Date\n"
  {
    var w := page[i..i + |DateOpening|];
    assert w == DateOpening;
    assert w[1..6] == "Date\n";
    var b := page[i + 1..k];
    assert forall n :: 0 <= n < 5 ==> b[n] == w[n + 1];
    assert b[..5] == w[1..6];
  }

  /** The first piece of a text starting with `"Date\n"` is `"Date"`. */
  lemma SplitStartsWithDate(block: string)
    requires |block| >= 5 && block[..5] == "Date\n"
    ensures Split(block)[0] == "Date"
  {
    assert forall k :: 0 <= k < 4 ==> block[k] == block[..5][k] && block[k] != '\n';
    assert block[4] == block[..5][4] == '\n';
    RunEndIs(block, 0, NotNewline, 4);
    assert LineEnd(block, 0) == 4;
    assert block[..4] == block[..5][..4] == "Date";
    assert Split(block) == [block[..4]] + Split(block[5..]);
  }

  /**
   * `Statement.get_transactions_headers`: the lines from the first
   * `\nDate\nOpération` (without its leading line break) up to the last
   * `\nAncien solde`. The first header is `"Date"`, no header holds a line
   * break, and joining them with line breaks gives the block back. With no
   * such block, `[0]` on the empty `findall` fails.
   */
  function TransactionHeaders(page: string): (r: Result<seq<string>, ParseError>)
    ensures r.Failure? <==> GreedySpan(page, DateOpening, OldBalance).None?
    ensures r.Failure? ==> r.error == NoHeaders
    ensures r.Success? ==>
      var (i, k) := GreedySpan(page, DateOpening, OldBalance).value;
      && Join(r.value) == page[i + 1..k]
      && r.value[0] == "Date"
      && forall n :: 0 <= n < |r.value| ==> '\n' !in r.value[n]
  {
    match GreedySpan(page, DateOpening, OldBalance)
    case None => Failure(NoHeaders)
    case Some((i, k)) =>
      DateBlockStart(page, i, k);
      SplitStartsWithDate(page[i + 1..k]);
      JoinSplit(page[i + 1..k]);
      Success(Split(page[i + 1..k]))
  }

  /**
   * The module-level `get_transactions_headers` on the first page's text:
   * the lines after the first `Vos opérations\n` up to the last
   * `\nAncien solde`.
   */
  function GetTransactionsHeaders(firstPage: string): (r: Result<seq<string>, ParseError>)
    ensures r.Failure? <==> GreedySpan(firstPage, YourOperations, OldBalance).None?
    ensures r.Failure? ==> r.error == NoHeaders
    ensures r.Success? ==>
      var (i, k) := GreedySpan(firstPage, YourOperations, OldBalance).value;
      && Join(r.value) == firstPage[i + |YourOperations|..k]
      && |r.value| >= 1
      && forall n :: 0 <= n < |r.value| ==> '\n' !in r.value[n]
  {
    match GreedySpan(firstPage, YourOperations, OldBalance)
    case None => Failure(NoHeaders)
    case Some((i, k)) =>
      var block := firstPage[i + |YourOperations|..k];
      JoinSplit(block);
      Success(Split(block))
  }

  const ExamplePage: string := "\nDate\nOpération\nAncien solde"

  lemma ExampleSpan()
    ensures GreedySpan(ExamplePage, DateOpening, OldBalance) == Some((0, 15))
  {
    var page := ExamplePage;
    assert page == DateOpening + OldBalance;
    assert page[0..15] == DateOpening;
    assert page[15..28] == OldBalance;
    assert page[1] == 'D' && page[6] == 'O' && page[16] == 'A';
    forall m: nat | At(page, m, OldBalance) ensures m == 15 {
      assert page[m..m + 13][0] == '\n' && page[m..m + 13][1] == 'A';
    }
    var r := GreedySpan(page, DateOpening, OldBalance);
    assert At(page, 0, DateOpening) && At(page, 15, OldBalance);
    assert r.Some?;
    assert r.value.1 == 15;
  }

  /** The two header lines of the example, split at their line break. */
  lemma ExampleLines()
    ensures Split("Date\nOpération") == ["Date", "Opération"]
  {
    var lines := ["Date", "Opération"];
    assert Join(lines) == "Date\nOpération";
    assert forall k :: 0 <= k < |lines[0]| ==> lines[0][k] != '\n';
    assert forall k :: 0 <= k < |lines[1]| ==> lines[1][k] != '\n';
    assert forall n :: 0 <= n < |lines| ==> '\n' !in lines[n];
    SplitJoin(lines);
  }

  /** A first page whose block holds two header lines. */
  lemma TransactionHeadersExample()
    ensures TransactionHeaders(ExamplePage) == Success(["Date", "Opération"])
  {
    ExampleSpan();
    assert ExamplePage[1..15] == "Date\nOpération";
    ExampleLines();
  }
}
