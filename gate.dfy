/**
 * The validity test on a statement's first page and the capture of its
 * issue date (read.py, `is_statement`, `get_emission_date` and the
 * module-level `get_emission_date`).
 */
module Gate {
  import opened Text
  import opened Wrappers
  import opened Errors

  /** The opening of the marker line, `Relevé de vo…`. */
  const Kind: string := "Relevé de vo"
  /** What must follow later on the same line. */
  const NumberMark: string := " - n°"
  /** The phrase in front of the issue date. */
  const IssuedOn: string := "Relevé édité le "

  /** A calendar date, as `datetime.strptime` returns it. */
  datatype Date = Date(year: int, month: int, day: int)

  /** No line break in `s[j..k]`. */
  ghost predicate OnOneLine(s: string, j: nat, k: nat)
    requires j <= k <= |s|
  {
    forall m :: j <= m < k ==> s[m] != '\n'
  }

  /**
   * What `Relevé de vo.* - n°.*` (without DOTALL) finds: some line holds
   * `Relevé de vo` followed, later on that line, by ` - n°`.
   */
  ghost predicate HasMarkerLine(s: string) {
    exists i: nat, j: nat ::
      At(s, i, Kind) && i + |Kind| <= j && At(s, j, NumberMark) && OnOneLine(s, i + |Kind|, j)
  }

  /** Whether `lit` starts at some offset `k >= j` with no line break in between. */
  function SameLineFrom(s: string, j: nat, lit: string): (r: bool)
    requires j <= |s|
    ensures r <==> exists k: nat :: j <= k && At(s, k, lit) && OnOneLine(s, j, k)
    decreases |s| - j
  {
    if At(s, j, lit) then
      assert OnOneLine(s, j, j);
      true
    else if j < |s| && s[j] != '\n' then
      var r := SameLineFrom(s, j + 1, lit);
      assert r ==> exists k: nat :: j <= k && At(s, k, lit) && OnOneLine(s, j, k) by {
        if r {
          var k: nat :| j + 1 <= k && At(s, k, lit) && OnOneLine(s, j + 1, k);
          assert OnOneLine(s, j, k);
        }
      }
      assert (exists k: nat :: j <= k && At(s, k, lit) && OnOneLine(s, j, k)) ==> r by {
        if exists k: nat :: j <= k && At(s, k, lit) && OnOneLine(s, j, k) {
          var k: nat :| j <= k && At(s, k, lit) && OnOneLine(s, j, k);
          assert k != j;
          assert OnOneLine(s, j + 1, k);
        }
      }
      r
    else
      assert forall k: nat :: j < k <= |s| ==> !OnOneLine(s, j, k);
      false
  }

  /** Whether a marker line starts at some offset `k >= i`. */
  function MarkerFrom(s: string, i: nat): (r: bool)
    requires i <= |s|
    ensures r <==> exists k: nat :: i <= k && At(s, k, Kind) && SameLineFrom(s, k + |Kind|, NumberMark)
    decreases |s| - i
  {
    if i == |s| then false
    else (At(s, i, Kind) && SameLineFrom(s, i + |Kind|, NumberMark)) || MarkerFrom(s, i + 1)
  }

  /** `is_statement`: the single gate of the parser. */
  function IsStatement(page: string): (r: bool)
    ensures r <==> HasMarkerLine(page)
  {
    var r := MarkerFrom(page, 0);
    assert r ==> HasMarkerLine(page) by {
      if r {
        var i: nat :| At(page, i, Kind) && SameLineFrom(page, i + |Kind|, NumberMark);
        var j: nat :| i + |Kind| <= j && At(page, j, NumberMark) && OnOneLine(page, i + |Kind|, j);
      }
    }
    assert HasMarkerLine(page) ==> r by {
      if HasMarkerLine(page) {
        var i: nat, j: nat :|
          At(page, i, Kind) && i + |Kind| <= j && At(page, j, NumberMark) && OnOneLine(page, i + |Kind|, j);
        assert SameLineFrom(page, i + |Kind|, NumberMark);
      }
    }
    r
  }

  /**
   * The shape of `\d+ \w+ \d{4}` after the phrase at `i`: the day digits end
   * at `d`, the month word ends at `w`, and four year digits follow.
   */
  ghost predicate DateShape(s: string, i: nat, d: nat, w: nat) {
    var q := i + |IssuedOn|;
    && At(s, i, IssuedOn)
    && q < d && d + 1 < w && w + 5 <= |s|
    && (forall k :: q <= k < d ==> IsDigit(s[k]))
    && s[d] == ' '
    && (forall k :: d + 1 <= k < w ==> IsWordChar(s[k]))
    && s[w] == ' '
    && IsDigit(s[w + 1]) && IsDigit(s[w + 2]) && IsDigit(s[w + 3]) && IsDigit(s[w + 4])
  }

  /**
   * The issue-date pattern tried at offset `i`. Neither greedy run can give
   * anything back (the space after it is outside its class), so there is at
   * most one way to match and this finds it.
   */
  function IssueDateAt(s: string, i: nat): (r: Option<(nat, nat)>)
    requires i <= |s|
    ensures r.Some? ==> i + |IssuedOn| < r.value.0 && r.value.0 + 1 < r.value.1 && r.value.1 + 5 <= |s|
  {
    PhraseFrom(s, i, 0)
  }

  /**
   * The phrase in front of the date compared from its `k`-th character on,
   * then the day, month and year after it.
   */
  function PhraseFrom(s: string, i: nat, k: nat): (r: Option<(nat, nat)>)
    requires i + k <= |s| && k <= |IssuedOn|
    ensures r.Some? ==> i + |IssuedOn| < r.value.0 && r.value.0 + 1 < r.value.1 && r.value.1 + 5 <= |s|
    decreases |IssuedOn| - k
  {
    if k == |IssuedOn| then DateFields(s, i + k)
    else if i + k < |s| && s[i + k] == IssuedOn[k] then PhraseFrom(s, i, k + 1)
    else None
  }

  /** `\d+ \w+ \d{4}` at `q`: where the day digits and the month word end. */
  function DateFields(s: string, q: nat): (r: Option<(nat, nat)>)
    requires q <= |s|
    ensures r.Some? ==> q < r.value.0 && r.value.0 + 1 < r.value.1 && r.value.1 + 5 <= |s|
    ensures r.Some? ==>
      && (forall k :: q <= k < r.value.0 ==> IsDigit(s[k]))
      && s[r.value.0] == ' '
      && (forall k :: r.value.0 + 1 <= k < r.value.1 ==> IsWordChar(s[k]))
      && s[r.value.1] == ' '
      && IsDigit(s[r.value.1 + 1]) && IsDigit(s[r.value.1 + 2])
      && IsDigit(s[r.value.1 + 3]) && IsDigit(s[r.value.1 + 4])
  {
    var d := RunEnd(s, q, Digit);
    if !(q < d < |s| && s[d] == ' ') then None
    else
      var w := RunEnd(s, d + 1, Word);
      if d + 1 < w && w + 5 <= |s| && s[w] == ' '
         && IsDigit(s[w + 1]) && IsDigit(s[w + 2]) && IsDigit(s[w + 3]) && IsDigit(s[w + 4])
      then Some((d, w))
      else None
  }

  /** Comparing the phrase character by character is comparing it as a whole. */
  lemma {:induction false} PhraseFromIs(s: string, i: nat, k: nat)
    requires i + k <= |s| && k <= |IssuedOn|
    requires forall j :: 0 <= j < k ==> s[i + j] == IssuedOn[j]
    ensures PhraseFrom(s, i, k) == if At(s, i, IssuedOn) then DateFields(s, i + |IssuedOn|) else None
    decreases |IssuedOn| - k
  {
    if k == |IssuedOn| {
      assert s[i..i + k] == IssuedOn;
    } else if i + k < |s| && s[i + k] == IssuedOn[k] {
      PhraseFromIs(s, i, k + 1);
    } else if i + |IssuedOn| <= |s| {
      assert s[i..i + |IssuedOn|][k] == s[i + k];
    }
  }

  /** `IssueDateAt` returns exactly the match at `i`, which is unique, or nothing. */
  lemma IssueDateAtSpec(s: string, i: nat)
    requires i <= |s|
    ensures forall d: nat, w: nat :: DateShape(s, i, d, w) <==> IssueDateAt(s, i) == Some((d, w))
  {
    PhraseFromIs(s, i, 0);
  }

  /** `re.search`: the leftmost offset `>= i` where the issue-date pattern matches. */
  function FirstDate(s: string, i: nat): (r: Option<(nat, nat, nat)>)
    requires i <= |s|
    ensures r.Some? ==>
      i <= r.value.0 <= |s| && IssueDateAt(s, r.value.0) == Some((r.value.1, r.value.2))
      && forall m :: i <= m < r.value.0 ==> IssueDateAt(s, m).None?
    ensures r.None? ==> forall m :: i <= m <= |s| ==> IssueDateAt(s, m).None?
    decreases |s| - i
  {
    match IssueDateAt(s, i)
    case Some((d, w)) => Some((i, d, w))
    case None => if i == |s| then None else FirstDate(s, i + 1)
  }

  /** The issue-date pattern matches at `i`, and at no offset before it. */
  ghost predicate LeftmostDate(s: string, i: nat, d: nat, w: nat) {
    DateShape(s, i, d, w) && forall i': nat, d': nat, w': nat :: i' < i ==> !DateShape(s, i', d', w')
  }

  /**
   * The `date` group of `re.search`: the text `<day> <month> <year>` of the
   * leftmost match, from after `Relevé édité le ` to the last year digit.
   */
  function EmissionDateText(page: string): (r: Option<string>)
    ensures r.Some? <==> exists i: nat, d: nat, w: nat :: DateShape(page, i, d, w)
    ensures r.Some? ==> exists i: nat, d: nat, w: nat ::
      LeftmostDate(page, i, d, w) && r.value == page[i + |IssuedOn|..w + 5]
  {
    match FirstDate(page, 0)
    case Some((i, d, w)) =>
      IssueDateAtSpec(page, i);
      assert LeftmostDate(page, i, d, w) by {
        forall i': nat, d': nat, w': nat | i' < i ensures !DateShape(page, i', d', w') {
          if i' <= |page| {
            IssueDateAtSpec(page, i');
          }
        }
      }
      Some(page[i + |IssuedOn|..w + 5])
    case None =>
      assert forall i: nat, d: nat, w: nat :: DateShape(page, i, d, w) ==> IssueDateAt(page, i) == Some((d, w)) by {
        forall i: nat, d: nat, w: nat | DateShape(page, i, d, w) ensures IssueDateAt(page, i) == Some((d, w)) {
          IssueDateAtSpec(page, i);
        }
      }
      None
  }

  /**
   * `Statement.get_emission_date`: the captured text read by `parseDate`,
   * which stands for `strptime(…, "%d %B %Y")` under the French locale.
   */
  function EmissionDate(page: string, parseDate: string -> Option<Date>): (r: Result<Date, ParseError>)
    ensures r.Success? <==> EmissionDateText(page).Some? && parseDate(EmissionDateText(page).value).Some?
    ensures r.Success? ==> r.value == parseDate(EmissionDateText(page).value).value
    ensures r == Failure(NoEmissionDate) <==> EmissionDateText(page).None?
    ensures r == Failure(BadEmissionDate) <==>
      EmissionDateText(page).Some? && parseDate(EmissionDateText(page).value).None?
  {
    match EmissionDateText(page)
    case None => Failure(NoEmissionDate)
    case Some(text) =>
      match parseDate(text)
      case None => Failure(BadEmissionDate)
      case Some(date) => Success(date)
  }

  /**
   * The module-level `get_emission_date` on the first page's text: no date
   * (`None`) exactly when the page fails the gate; otherwise the same date,
   * or the same failure, as `Statement.get_emission_date`.
   */
  function GetEmissionDate(firstPage: string, parseDate: string -> Option<Date>)
    : (r: Result<Option<Date>, ParseError>)
    ensures r == Success(None) <==> !HasMarkerLine(firstPage)
    ensures HasMarkerLine(firstPage) ==>
      match EmissionDate(firstPage, parseDate)
      case Success(date) => r == Success(Some(date))
      case Failure(e) => r == Failure(e)
  {
    if !IsStatement(firstPage) then Success(None)
    else
      match EmissionDate(firstPage, parseDate)
      case Success(date) => Success(Some(date))
      case Failure(e) => Failure(e)
  }

  /** A line `…Relevé de vo… - n°…` passes the gate. */
  lemma GateAcceptsMarkerLine()
    ensures IsStatement("x\nRelevé de votre compte - n°12\n")
  {
    var good := "x\nRelevé de votre compte - n°12\n";
    assert good == "x\n" + Kind + "tre compte" + NumberMark + "12\n";
    assert good[2..14] == Kind;
    assert good[24..29] == NumberMark;
    assert OnOneLine(good, 14, 24);
  }

  /** The two pieces of the marker on two lines do not pass: `.` does not cross a line break. */
  lemma GateRejectsSplitMarker()
    ensures !IsStatement("Relevé de vo\n - n°")
  {
    var bad := "Relevé de vo\n - n°";
    forall j: nat | At(bad, j, NumberMark) ensures j == 13 {
      assert bad[j..j + 5][4] == '°';
    }
    forall i: nat | At(bad, i, Kind) ensures i == 0 {
      assert bad[i..i + 12][0] == 'R' && bad[i..i + 12][1] == 'e';
    }
    assert bad[12] == '\n';
  }
}
