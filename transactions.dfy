/**
 * The transaction lines of a statement (read.py, `get_all_transactions`):
 * every non-overlapping match, left to right over the concatenated page
 * texts, of a `DD/MM` date, one whitespace character, the shortest
 * description (which may span lines) followed by a line break, and an
 * amount `[\d ]+,\d{2}`; then each amount is converted to a number.
 */
module Transactions {
  import opened Text
  import opened Wrappers
  import opened Amounts

  /** A match of the pattern: its start offset and its `date`, `name` and `amount` groups. */
  datatype TransactionMatch = TransactionMatch(start: nat, date: string, name: string, amount: string)

  /** A row of the transactions table once its amount is converted (to cents). */
  datatype Transaction = Transaction(start: nat, date: string, name: string, amount: nat)

  /** Where the description of a match ends: the offset of the line break before the amount. */
  function DescriptionEnd(m: TransactionMatch): nat {
    m.start + 6 + |m.name|
  }

  /** The offset just after the match, past the amount's two fraction digits. */
  function MatchEnd(m: TransactionMatch): nat {
    DescriptionEnd(m) + 1 + |m.amount|
  }

  /** `\d\d/\d\d[\s\n]` at offset `i`. */
  predicate DayMonthAt(s: string, i: nat) {
    && i + 6 <= |s|
    && IsDigit(s[i]) && IsDigit(s[i + 1]) && s[i + 2] == '/'
    && IsDigit(s[i + 3]) && IsDigit(s[i + 4])
    && IsSpace(s[i + 5])
  }

  /** The amount pattern matches `s[q..e]`. */
  ghost predicate AmountAt(s: string, q: nat, e: nat) {
    q <= e <= |s| && IsAmountToken(s[q..e])
  }

  /**
   * The amount pattern tried at offset `q`: the longest run of `[\d ]`,
   * which must be followed by a comma and two digits. Returns the end.
   */
  function AmountMatch(s: string, q: nat): Option<nat>
    requires q <= |s|
  {
    var c := RunEnd(s, q, DigitOrSpace);
    if q < c && c + 3 <= |s| && s[c] == ',' && IsDigit(s[c + 1]) && IsDigit(s[c + 2])
    then Some(c + 3)
    else None
  }

  /**
   * The comma is outside the class `[\d ]`, so the greedy run cannot give
   * anything back: an amount at `q` is unique and `AmountMatch` returns its
   * end, or nothing when there is none.
   */
  lemma AmountMatchSpec(s: string, q: nat)
    requires q <= |s|
    ensures forall e: nat :: AmountAt(s, q, e) <==> AmountMatch(s, q) == Some(e)
  {
    forall e: nat ensures AmountAt(s, q, e) <==> AmountMatch(s, q) == Some(e) {
      if AmountAt(s, q, e) {
        var t := s[q..e];
        assert forall k :: q <= k < e - 3 ==> IsAmountRunChar(s[k]) by {
          forall k | q <= k < e - 3 ensures IsAmountRunChar(s[k]) {
            assert t[k - q] == s[k];
          }
        }
        assert s[e - 3] == t[|t| - 3];
        RunEndIs(s, q, DigitOrSpace, e - 3);
        assert s[e - 2] == t[|t| - 2] && s[e - 1] == t[|t| - 1];
      }
      if AmountMatch(s, q) == Some(e) {
        var t := s[q..e];
        assert forall k :: 0 <= k < |t| - 3 ==> IsAmountRunChar(t[k]) by {
          forall k | 0 <= k < |t| - 3 ensures IsAmountRunChar(t[k]) {
            assert t[k] == s[q + k];
          }
        }
        assert t[|t| - 3] == s[e - 3] && t[|t| - 2] == s[e - 2] && t[|t| - 1] == s[e - 1];
      }
    }
  }

  /** The description may end at `j`: a line break there, followed by an amount. */
  predicate Terminator(s: string, j: nat) {
    j < |s| && s[j] == '\n' && AmountMatch(s, j + 1).Some?
  }

  /** The lazy `.*?`: the first offset at or after `j` where the description may end. */
  function FirstTerminator(s: string, j: nat): (r: Option<nat>)
    requires j <= |s|
    ensures r.Some? ==>
      j <= r.value && Terminator(s, r.value) && forall m :: j <= m < r.value ==> !Terminator(s, m)
    ensures r.None? ==> forall m :: j <= m ==> !Terminator(s, m)
    decreases |s| - j
  {
    if j == |s| then None
    else if Terminator(s, j) then Some(j)
    else FirstTerminator(s, j + 1)
  }

  /** A terminator at `m` with none between `j` and `m` is the first one. */
  lemma FirstTerminatorIs(s: string, j: nat, m: nat)
    requires j <= m && Terminator(s, m)
    requires forall x :: j <= x < m ==> !Terminator(s, x)
    ensures FirstTerminator(s, j) == Some(m)
  {
  }

  /**
   * The pattern matches at `i` with the description ending at `j` and the
   * amount ending at `e`; the description is the shortest one possible.
   */
  ghost predicate TransactionAt(s: string, i: nat, j: nat, e: nat) {
    && DayMonthAt(s, i)
    && i + 6 <= j
    && Terminator(s, j)
    && (forall m :: i + 6 <= m < j ==> !Terminator(s, m))
    && AmountAt(s, j + 1, e)
  }

  /** The pattern tried at offset `i`: where its description and its amount end. */
  function TransactionMatchAt(s: string, i: nat): Option<(nat, nat)>
    requires i <= |s|
  {
    if DayMonthAt(s, i) then
      match FirstTerminator(s, i + 6)
      case Some(j) => Some((j, AmountMatch(s, j + 1).value))
      case None => None
    else None
  }

  /** What `TransactionMatchAt` finds is a match. */
  lemma TransactionMatchSome(s: string, i: nat)
    requires i <= |s| && TransactionMatchAt(s, i).Some?
    ensures TransactionAt(s, i, TransactionMatchAt(s, i).value.0, TransactionMatchAt(s, i).value.1)
  {
    var j := FirstTerminator(s, i + 6).value;
    AmountMatchSpec(s, j + 1);
  }

  /** A match at `i` is the one `TransactionMatchAt` finds. */
  lemma TransactionMatchUnique(s: string, i: nat, j: nat, e: nat)
    requires TransactionAt(s, i, j, e)
    ensures TransactionMatchAt(s, i) == Some((j, e))
  {
    FirstTerminatorIs(s, i + 6, j);
    AmountMatchSpec(s, j + 1);
  }

  /** `TransactionMatchAt` returns exactly the match at `i`, which is unique, or nothing. */
  lemma TransactionMatchSpec(s: string, i: nat)
    requires i <= |s|
    ensures forall j: nat, e: nat :: TransactionAt(s, i, j, e) <==> TransactionMatchAt(s, i) == Some((j, e))
  {
    forall j: nat, e: nat ensures TransactionAt(s, i, j, e) <==> TransactionMatchAt(s, i) == Some((j, e)) {
      if TransactionAt(s, i, j, e) {
        TransactionMatchUnique(s, i, j, e);
      }
      if TransactionMatchAt(s, i) == Some((j, e)) {
        TransactionMatchSome(s, i);
      }
    }
  }

  /** Where a match found at `i` ends: past the date, the description and the amount. */
  lemma TransactionMatchBounds(s: string, i: nat)
    requires i <= |s| && TransactionMatchAt(s, i).Some?
    ensures i + 6 <= TransactionMatchAt(s, i).value.0 < TransactionMatchAt(s, i).value.1 <= |s|
  {
    var j := FirstTerminator(s, i + 6).value;
    AmountMatchSpec(s, j + 1);
  }

  /** `finditer` from offset `pos`: a match at `pos` is taken and the search resumes after it. */
  function TransactionsFrom(s: string, pos: nat): seq<TransactionMatch>
    requires pos <= |s|
    decreases |s| - pos
  {
    if pos == |s| then []
    else
      match TransactionMatchAt(s, pos)
      case Some((j, e)) =>
        var m := TransactionMatch(pos, s[pos..pos + 5], s[pos + 6..j], s[j + 1..e]);
        assert e > pos by { TransactionMatchBounds(s, pos); }
        [m] + TransactionsFrom(s, e)
      case None => TransactionsFrom(s, pos + 1)
  }

  /** `m` records a match of the transaction pattern in `s`, with its groups. */
  ghost predicate IsTransactionMatch(s: string, m: TransactionMatch) {
    && TransactionAt(s, m.start, DescriptionEnd(m), MatchEnd(m))
    && m.date == s[m.start..m.start + 5]
    && m.name == s[m.start + 6..DescriptionEnd(m)]
    && m.amount == s[DescriptionEnd(m) + 1..MatchEnd(m)]
  }

  /** After a match at `pos`, the rest of the matches are those found from its end. */
  lemma TransactionsStep(s: string, pos: nat)
    requires pos < |s| && TransactionMatchAt(s, pos).Some?
    ensures pos + 6 <= TransactionMatchAt(s, pos).value.0 < TransactionMatchAt(s, pos).value.1 <= |s|
    ensures
      var (j, e) := TransactionMatchAt(s, pos).value;
      var r := TransactionsFrom(s, pos);
      var rest := TransactionsFrom(s, e);
      && |r| == |rest| + 1
      && r[0] == TransactionMatch(pos, s[pos..pos + 5], s[pos + 6..j], s[j + 1..e])
      && DescriptionEnd(r[0]) == j && MatchEnd(r[0]) == e
      && (forall k :: 0 < k < |r| ==> r[k] == rest[k - 1])
      && (forall m :: m in r <==> m == r[0] || m in rest)
  {
    TransactionMatchBounds(s, pos);
    var (j, e) := TransactionMatchAt(s, pos).value;
    assert TransactionsFrom(s, pos) == [TransactionsFrom(s, pos)[0]] + TransactionsFrom(s, e);
  }

  /**
   * Every match found holds at its offset: a `DD/MM` date, a whitespace
   * character, the shortest description followed by a line break and an
   * amount token; the groups are exactly that text.
   */
  lemma {:induction false} TransactionsSound(s: string, pos: nat)
    requires pos <= |s|
    ensures forall m :: m in TransactionsFrom(s, pos) ==> IsTransactionMatch(s, m)
    decreases |s| - pos
  {
    if pos < |s| {
      if TransactionMatchAt(s, pos).Some? {
        var e := TransactionMatchAt(s, pos).value.1;
        TransactionsStep(s, pos);
        TransactionMatchSome(s, pos);
        TransactionsSound(s, e);
      } else {
        TransactionsSound(s, pos + 1);
      }
    }
  }


  /** Every match found starts at or after `pos` and ends inside the document. */
  lemma {:induction false} TransactionsWithin(s: string, pos: nat)
    requires pos <= |s|
    ensures forall m :: m in TransactionsFrom(s, pos) ==> pos <= m.start && MatchEnd(m) <= |s|
    decreases |s| - pos
  {
    if pos < |s| {
      if TransactionMatchAt(s, pos).Some? {
        var e := TransactionMatchAt(s, pos).value.1;
        TransactionsStep(s, pos);
        TransactionsWithin(s, e);
      } else {
        TransactionsWithin(s, pos + 1);
      }
    }
  }


  /** Each match ends before the next one starts. */
  lemma {:induction false} TransactionsAdjacent(s: string, pos: nat)
    requires pos <= |s|
    ensures forall k :: 0 <= k < |TransactionsFrom(s, pos)| - 1 ==>
      MatchEnd(TransactionsFrom(s, pos)[k]) <= TransactionsFrom(s, pos)[k + 1].start
    decreases |s| - pos
  {
    if pos < |s| {
      if TransactionMatchAt(s, pos).Some? {
        var e := TransactionMatchAt(s, pos).value.1;
        TransactionsStep(s, pos);
        TransactionsAdjacent(s, e);
        TransactionsWithin(s, e);
        var r := TransactionsFrom(s, pos);
        var rest := TransactionsFrom(s, e);
        forall k | 0 <= k < |r| - 1 ensures MatchEnd(r[k]) <= r[k + 1].start {
          if k == 0 {
            assert r[1] == rest[0] && rest[0] in rest;
          } else {
            assert r[k] == rest[k - 1] && r[k + 1] == rest[k];
          }
        }
      } else {
        TransactionsAdjacent(s, pos + 1);
      }
    }
  }

  /** Matches that each end before the next starts are pairwise in order. */
  lemma {:induction false} ChainOrdered(r: seq<TransactionMatch>)
    requires forall k :: 0 <= k < |r| - 1 ==> MatchEnd(r[k]) <= r[k + 1].start
    ensures forall k, l :: 0 <= k < l < |r| ==> MatchEnd(r[k]) <= r[l].start
  {
    if |r| > 1 {
      ChainOrdered(r[1..]);
      forall k, l | 0 <= k < l < |r| ensures MatchEnd(r[k]) <= r[l].start {
        if k == 0 {
          if l > 1 {
            assert r[1..][0] == r[1] && r[1..][l - 1] == r[l];
          }
        } else {
          assert r[1..][k - 1] == r[k] && r[1..][l - 1] == r[l];
        }
      }
    }
  }

  /** The matches do not overlap and come in text order. */
  lemma TransactionsOrdered(s: string, pos: nat)
    requires pos <= |s|
    ensures forall k, l :: 0 <= k < l < |TransactionsFrom(s, pos)| ==>
      MatchEnd(TransactionsFrom(s, pos)[k]) <= TransactionsFrom(s, pos)[l].start
  {
    TransactionsAdjacent(s, pos);
    ChainOrdered(TransactionsFrom(s, pos));
  }

  /** Start offsets are strictly increasing, so no offset is recorded twice. */
  lemma TransactionStartsIncrease(s: string, pos: nat)
    requires pos <= |s|
    ensures forall k, l :: 0 <= k < l < |TransactionsFrom(s, pos)| ==>
      TransactionsFrom(s, pos)[k].start < TransactionsFrom(s, pos)[l].start
  {
    TransactionsOrdered(s, pos);
  }

  /** Offset `i` lies inside one of the recorded matches. */
  ghost predicate Covered(r: seq<TransactionMatch>, i: nat) {
    exists m :: m in r && m.start <= i < MatchEnd(m)
  }

  /**
   * Nothing is missed: every offset where the pattern matches is recorded
   * or lies inside an earlier recorded match.
   */
  lemma {:induction false} TransactionsComplete(s: string, pos: nat)
    requires pos <= |s|
    ensures forall i: nat :: pos <= i < |s| && TransactionMatchAt(s, i).Some? ==>
      Covered(TransactionsFrom(s, pos), i)
    decreases |s| - pos
  {
    if pos < |s| {
      if TransactionMatchAt(s, pos).Some? {
        var e := TransactionMatchAt(s, pos).value.1;
        TransactionsStep(s, pos);
        TransactionsComplete(s, e);
        var r := TransactionsFrom(s, pos);
        var rest := TransactionsFrom(s, e);
        forall i: nat | pos <= i < |s| && TransactionMatchAt(s, i).Some? ensures Covered(r, i) {
          if i < e {
            assert r[0] in r && r[0].start <= i < MatchEnd(r[0]);
          } else {
            var m :| m in rest && m.start <= i < MatchEnd(m);
            assert m in r;
          }
        }
      } else {
        TransactionsComplete(s, pos + 1);
      }
    }
  }


  /**
   * `Statement.get_all_transactions` over the document text: the matches in
   * order, each amount converted by `ParseAmount` (which always succeeds on
   * a captured amount), the offset, date and description kept as captured.
   */
  function AllTransactions(text: string): (r: seq<Transaction>)
    ensures
      var ms := TransactionsFrom(text, 0);
      && |r| == |ms|
      && forall k :: 0 <= k < |r| ==>
        && r[k].start == ms[k].start && r[k].date == ms[k].date && r[k].name == ms[k].name
        && ParseAmount(ms[k].amount) == Some(r[k].amount)
  {
    var ms := TransactionsFrom(text, 0);
    TransactionsSound(text, 0);
    assert forall k :: 0 <= k < |ms| ==> IsAmountToken(ms[k].amount) by {
      forall k | 0 <= k < |ms| ensures IsAmountToken(ms[k].amount) {
        assert ms[k] in ms && IsTransactionMatch(text, ms[k]);
      }
    }
    seq(|ms|, k requires 0 <= k < |ms| =>
      Transaction(ms[k].start, ms[k].date, ms[k].name, ParseAmount(ms[k].amount).value))
  }

  const MultiLineEntry: string := "05/01 A\nB\n12,00"

  /**
   * The lazy description stops at the first line break followed by an
   * amount, so a line break followed by other text stays in the name.
   */
  lemma MultiLineEntryExample()
    ensures TransactionsFrom(MultiLineEntry, 0) == [TransactionMatch(0, "05/01", "A\nB", "12,00")]
  {
    var s := MultiLineEntry;
    assert |s| == 15;
    assert s[5] == ' ' && s[6] == 'A' && s[7] == '\n' && s[8] == 'B' && s[9] == '\n';
    assert s[10] == '1' && s[11] == '2' && s[12] == ',' && s[13] == '0' && s[14] == '0';
    RunEndIs(s, 8, DigitOrSpace, 8);
    RunEndIs(s, 10, DigitOrSpace, 12);
    assert !Terminator(s, 6) && !Terminator(s, 7) && !Terminator(s, 8) && Terminator(s, 9);
    FirstTerminatorIs(s, 6, 9);
    assert TransactionMatchAt(s, 0) == Some((9, 15));
    assert s[0..5] == "05/01" && s[6..9] == "A\nB" && s[10..15] == "12,00";
    assert TransactionsFrom(s, 0) == [TransactionMatch(0, "05/01", "A\nB", "12,00")] + TransactionsFrom(s, 15);
  }
}
