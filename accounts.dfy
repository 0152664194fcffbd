/**
 * The account headers of a statement (read.py, `get_accounts_start_pos`):
 * every non-overlapping match of `\n<name> n°<id>\n`, with the name in
 * `[a-zA-Z ]+` and the id in `[\w ]+`, found left to right over the
 * concatenated page texts, with its start offset.
 */
module Accounts {
  import opened Text
  import opened Wrappers

  /** One account header: where its match starts, and the two captured groups as they are. */
  datatype Account = Account(start: nat, name: string, id: string)

  /** Where the account name ends, at the space of ` n°`. */
  function NameEnd(a: Account): nat {
    a.start + 1 + |a.name|
  }

  /** Where the account id ends, at the closing line break. */
  function IdEnd(a: Account): nat {
    NameEnd(a) + 3 + |a.id|
  }

  /** The offset just after the match, past its closing line break. */
  function End(a: Account): nat {
    IdEnd(a) + 1
  }

  /**
   * The pattern matches at `i` with the name ending at `p` and the id
   * ending at `e`, where the closing line break is.
   */
  ghost predicate HeaderAt(s: string, i: nat, p: nat, e: nat) {
    && i < |s| && s[i] == '\n'
    && i + 1 < p
    && p + 3 < e < |s|
    && s[p] == ' ' && s[p + 1] == 'n' && s[p + 2] == '°'
    && (forall k :: i + 1 <= k < p ==> IsNameChar(s[k]))
    && (forall k :: p + 3 <= k < e ==> IsIdChar(s[k]))
    && s[e] == '\n'
  }

  /**
   * The pattern tried at offset `i`: after the line break, the name is the
   * longest run of `[a-zA-Z ]`, which must end in ` n` before `°`; then the
   * id is the longest run of `[\w ]`, which must be followed by a line
   * break. Returns where the name and the id end.
   */
  function HeaderMatch(s: string, i: nat): (r: Option<(nat, nat)>)
    requires i <= |s|
    ensures r.Some? ==> i + 1 < r.value.0 && r.value.0 + 3 < r.value.1 < |s|
  {
    if i < |s| && s[i] == '\n' then NameMatch(s, i, i + 1) else None
  }

  /**
   * The rest of `HeaderMatch` once the name run has reached offset `k`:
   * the run goes on while the characters are of the name class, and where
   * it stops the literal and the id must follow.
   */
  function NameMatch(s: string, i: nat, k: nat): (r: Option<(nat, nat)>)
    requires i < k <= |s|
    ensures r.Some? ==> i + 1 < r.value.0 && r.value.0 + 3 < r.value.1 < |s|
    decreases |s| - k
  {
    if k < |s| && IsNameChar(s[k]) then NameMatch(s, i, k + 1)
    else if i + 4 <= k < |s| && s[k - 2] == ' ' && s[k - 1] == 'n' && s[k] == '°' then
      var e := RunEnd(s, k + 1, WordOrSpace);
      if k + 1 < e < |s| && s[e] == '\n' then Some((k - 2, e)) else None
    else None
  }

  /** What `NameMatch` finds, the name run so far being of the name class, is a match. */
  lemma {:induction false} NameMatchSome(s: string, i: nat, k: nat)
    requires i < k <= |s| && s[i] == '\n'
    requires forall j :: i + 1 <= j < k ==> IsNameChar(s[j])
    requires NameMatch(s, i, k).Some?
    ensures HeaderAt(s, i, NameMatch(s, i, k).value.0, NameMatch(s, i, k).value.1)
    decreases |s| - k
  {
    if k < |s| && IsNameChar(s[k]) {
      NameMatchSome(s, i, k + 1);
    }
  }

  /** From any offset inside the name run of a match, `NameMatch` finds that match. */
  lemma {:induction false} NameMatchUnique(s: string, i: nat, k: nat, p: nat, e: nat)
    requires HeaderAt(s, i, p, e) && i < k <= p + 2
    ensures NameMatch(s, i, k) == Some((p, e))
    decreases p + 2 - k
  {
    if k < p + 2 {
      assert IsNameChar(s[k]) by {
        if k == p {
          assert s[k] == ' ';
        } else if k == p + 1 {
          assert s[k] == 'n';
        }
      }
      NameMatchUnique(s, i, k + 1, p, e);
    } else {
      RunEndIs(s, p + 3, WordOrSpace, e);
    }
  }

  /** What `HeaderMatch` finds is a match. */
  lemma HeaderMatchSome(s: string, i: nat)
    requires i <= |s| && HeaderMatch(s, i).Some?
    ensures HeaderAt(s, i, HeaderMatch(s, i).value.0, HeaderMatch(s, i).value.1)
  {
    NameMatchSome(s, i, i + 1);
  }

  /** A match at `i` is the one `HeaderMatch` finds. */
  lemma HeaderMatchUnique(s: string, i: nat, p: nat, e: nat)
    requires HeaderAt(s, i, p, e)
    ensures HeaderMatch(s, i) == Some((p, e))
  {
    NameMatchUnique(s, i, i + 1, p, e);
  }

  /**
   * Neither greedy class contains the character that must follow it (`°`,
   * then the line break), so a match at `i` is unique, and `HeaderMatch`
   * returns exactly it, or nothing when the pattern does not match at `i`.
   */
  lemma HeaderMatchSpec(s: string, i: nat)
    requires i <= |s|
    ensures forall p: nat, e: nat :: HeaderAt(s, i, p, e) <==> HeaderMatch(s, i) == Some((p, e))
  {
    forall p: nat, e: nat ensures HeaderAt(s, i, p, e) <==> HeaderMatch(s, i) == Some((p, e)) {
      if HeaderAt(s, i, p, e) {
        HeaderMatchUnique(s, i, p, e);
      }
      if HeaderMatch(s, i) == Some((p, e)) {
        HeaderMatchSome(s, i);
      }
    }
  }

  /** `finditer` from offset `pos`: a match at `pos` is taken and the search resumes after it. */
  function AccountsFrom(s: string, pos: nat): seq<Account>
    requires pos <= |s|
    decreases |s| - pos
  {
    if pos == |s| then []
    else
      match HeaderMatch(s, pos)
      case Some((p, e)) => [Account(pos, s[pos + 1..p], s[p + 3..e])] + AccountsFrom(s, e + 1)
      case None => AccountsFrom(s, pos + 1)
  }

  /** `Statement.get_accounts_start_pos` over the document text `"".join(pages)`. */
  function AccountsStartPos(text: string): seq<Account>
  {
    AccountsFrom(text, 0)
  }

  /**
   * After a header at `pos`, the account recorded for it, followed by the
   * accounts found past its closing line break.
   */
  lemma AccountsStep(s: string, pos: nat)
    requires pos < |s| && HeaderMatch(s, pos).Some?
    ensures
      var (p, e) := HeaderMatch(s, pos).value;
      var r := AccountsFrom(s, pos);
      var rest := AccountsFrom(s, e + 1);
      && |r| == |rest| + 1
      && r[0] == Account(pos, s[pos + 1..p], s[p + 3..e])
      && NameEnd(r[0]) == p && IdEnd(r[0]) == e && End(r[0]) == e + 1
      && (forall k :: 0 < k < |r| ==> r[k] == rest[k - 1])
      && (forall a :: a in r <==> a == r[0] || a in rest)
  {
    var e := HeaderMatch(s, pos).value.1;
    assert AccountsFrom(s, pos) == [AccountsFrom(s, pos)[0]] + AccountsFrom(s, e + 1);
  }

  /** `a` records a match of the header pattern in `s`, with its groups. */
  ghost predicate IsHeader(s: string, a: Account) {
    && HeaderAt(s, a.start, NameEnd(a), IdEnd(a))
    && a.name == s[a.start + 1..NameEnd(a)]
    && a.id == s[NameEnd(a) + 3..IdEnd(a)]
  }

  /**
   * Every account found is a match of the header pattern at its offset,
   * with its name and id exactly the captured text.
   */
  lemma {:induction false} AccountsSound(s: string, pos: nat)
    requires pos <= |s|
    ensures forall a :: a in AccountsFrom(s, pos) ==> IsHeader(s, a)
    decreases |s| - pos
  {
    if pos < |s| {
      if HeaderMatch(s, pos).Some? {
        var e := HeaderMatch(s, pos).value.1;
        AccountsStep(s, pos);
        HeaderMatchSome(s, pos);
        AccountsSound(s, e + 1);
      } else {
        AccountsSound(s, pos + 1);
      }
    }
  }

  /** Every account found starts at or after `pos` and ends inside the document. */
  lemma {:induction false} AccountsWithin(s: string, pos: nat)
    requires pos <= |s|
    ensures forall a :: a in AccountsFrom(s, pos) ==> pos <= a.start && End(a) <= |s|
    decreases |s| - pos
  {
    if pos < |s| {
      if HeaderMatch(s, pos).Some? {
        var e := HeaderMatch(s, pos).value.1;
        AccountsStep(s, pos);
        AccountsWithin(s, e + 1);
      } else {
        AccountsWithin(s, pos + 1);
      }
    }
  }


  /** Each match ends, past its closing line break, before the next one starts. */
  lemma {:induction false} AccountsAdjacent(s: string, pos: nat)
    requires pos <= |s|
    ensures forall k :: 0 <= k < |AccountsFrom(s, pos)| - 1 ==>
      End(AccountsFrom(s, pos)[k]) <= AccountsFrom(s, pos)[k + 1].start
    decreases |s| - pos
  {
    if pos < |s| {
      if HeaderMatch(s, pos).Some? {
        var e := HeaderMatch(s, pos).value.1;
        AccountsStep(s, pos);
        AccountsAdjacent(s, e + 1);
        AccountsWithin(s, e + 1);
        var r := AccountsFrom(s, pos);
        var rest := AccountsFrom(s, e + 1);
        forall k | 0 <= k < |r| - 1 ensures End(r[k]) <= r[k + 1].start {
          if k == 0 {
            assert r[1] == rest[0] && rest[0] in rest;
          } else {
            assert r[k] == rest[k - 1] && r[k + 1] == rest[k];
          }
        }
      } else {
        AccountsAdjacent(s, pos + 1);
      }
    }
  }

  /** Accounts that each end before the next starts are pairwise in order. */
  lemma {:induction false} ChainOrdered(r: seq<Account>)
    requires forall k :: 0 <= k < |r| - 1 ==> End(r[k]) <= r[k + 1].start
    ensures forall k, l :: 0 <= k < l < |r| ==> End(r[k]) <= r[l].start
  {
    if |r| > 1 {
      ChainOrdered(r[1..]);
      forall k, l | 0 <= k < l < |r| ensures End(r[k]) <= r[l].start {
        if k == 0 {
          if l > 1 {
            assert r[1..][0] == r[1] && r[1..][l - 1] == r[l];
          }
        } else {
          assert r[1..][k - 1] == r[k] && r[1..][l - 1] == r[l];
        }
      }
    }
  }

  /**
   * The matches do not overlap and come in text order: each one ends,
   * past its closing line break, before the next one starts.
   */
  lemma AccountsOrdered(s: string, pos: nat)
    requires pos <= |s|
    ensures forall k, l :: 0 <= k < l < |AccountsFrom(s, pos)| ==>
      End(AccountsFrom(s, pos)[k]) <= AccountsFrom(s, pos)[l].start
  {
    AccountsAdjacent(s, pos);
    ChainOrdered(AccountsFrom(s, pos));
  }

  /** Start offsets are strictly increasing, so no offset is recorded twice. */
  lemma AccountStartsIncrease(s: string, pos: nat)
    requires pos <= |s|
    ensures forall k, l :: 0 <= k < l < |AccountsFrom(s, pos)| ==>
      AccountsFrom(s, pos)[k].start < AccountsFrom(s, pos)[l].start
  {
    AccountsOrdered(s, pos);
  }

  /** Offset `i` lies inside one of the recorded matches. */
  ghost predicate Covered(r: seq<Account>, i: nat) {
    exists a :: a in r && a.start <= i < End(a)
  }

  /** An offset inside the first account, or covered by the rest, is covered. */
  lemma CoveredCons(r: seq<Account>, rest: seq<Account>, i: nat)
    requires |r| > 0 && forall a :: a in r <==> a == r[0] || a in rest
    requires r[0].start <= i < End(r[0]) || Covered(rest, i)
    ensures Covered(r, i)
  {
    if !(r[0].start <= i < End(r[0])) {
      var a :| a in rest && a.start <= i < End(a);
      assert a in r;
    }
  }

  /**
   * Nothing is missed: every offset where the pattern matches is either
   * recorded or lies inside an earlier recorded match, which `finditer`
   * has already consumed.
   */
  lemma {:induction false} AccountsComplete(s: string, pos: nat)
    requires pos <= |s|
    ensures forall i: nat :: pos <= i < |s| && HeaderMatch(s, i).Some? ==> Covered(AccountsFrom(s, pos), i)
    decreases |s| - pos
  {
    if pos < |s| {
      if HeaderMatch(s, pos).Some? {
        var e := HeaderMatch(s, pos).value.1;
        AccountsStep(s, pos);
        AccountsComplete(s, e + 1);
        var r := AccountsFrom(s, pos);
        var rest := AccountsFrom(s, e + 1);
        forall i: nat | pos <= i < |s| && HeaderMatch(s, i).Some? ensures Covered(r, i) {
          if i <= e {
            assert r[0].start <= i < End(r[0]);
          } else {
            assert Covered(rest, i);
          }
          CoveredCons(r, rest, i);
        }
      } else {
        AccountsComplete(s, pos + 1);
      }
    }
  }


  const AdjacentHeaders: string := "\nA n°1\nB n°2\n"

  lemma NothingAfterFirstHeader()
    ensures AccountsFrom(AdjacentHeaders, 7) == []
  {
    var s := AdjacentHeaders;
    assert |s| == 13;
    assert s[7] != '\n' && s[8] != '\n' && s[9] != '\n' && s[10] != '\n' && s[11] != '\n';
    assert s[12] == '\n';
    assert AccountsFrom(s, 12) == [];
    assert AccountsFrom(s, 11) == [];
    assert AccountsFrom(s, 10) == [];
    assert AccountsFrom(s, 9) == [];
    assert AccountsFrom(s, 8) == [];
  }

  /** The second of two adjacent header lines, taken alone, matches the pattern. */
  lemma SecondAdjacentHeaderMatches()
    ensures HeaderMatch(AdjacentHeaders, 6) == Some((8, 12))
  {
    var s := AdjacentHeaders;
    assert |s| == 13;
    assert s[6] == '\n' && s[7] == 'B' && s[8] == ' ' && s[9] == 'n' && s[10] == '°' && s[11] == '2' && s[12] == '\n';
    HeaderMatchUnique(s, 6, 8, 12);
  }

  /**
   * Two header lines with nothing in between: the first match consumes the
   * line break that the second one needs, so only the first is recorded.
   */
  lemma AdjacentHeadersExample()
    ensures AccountsStartPos(AdjacentHeaders) == [Account(0, "A", "1")]
  {
    var s := AdjacentHeaders;
    assert |s| == 13;
    assert s[0] == '\n' && s[1] == 'A' && s[2] == ' ' && s[3] == 'n' && s[4] == '°';
    assert s[5] == '1' && s[6] == '\n';
    HeaderMatchUnique(s, 0, 2, 6);
    NothingAfterFirstHeader();
    assert s[1..2] == "A" && s[5..6] == "1";
    assert AccountsFrom(s, 0) == [Account(0, "A", "1")] + [];
  }
}
