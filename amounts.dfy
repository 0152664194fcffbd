/**
 * Amount tokens `[\d ]+,\d{2}` of a statement line and their conversion to
 * a number: the comma becomes the decimal point, the spaces (thousands
 * separators) are removed, and the text is read as a decimal. Amounts are
 * kept as whole hundredths (cents) instead of floats.
 */
module Amounts {
  import opened Text
  import opened Wrappers

  /** The class `[\d ]` of an amount's integer part. */
  predicate IsAmountRunChar(c: char) {
    InClass(c, DigitOrSpace)
  }

  /** `t` matches `[\d ]+,\d{2}` in full. */
  predicate IsAmountToken(t: string) {
    && |t| >= 4
    && t[|t| - 3] == ','
    && IsDigit(t[|t| - 2])
    && IsDigit(t[|t| - 1])
    && forall k :: 0 <= k < |t| - 3 ==> IsAmountRunChar(t[k])
  }

  /** `t.replace(",", ".").replace(" ", "")`. */
  function Normalized(t: string): string
  {
    if t == [] then []
    else (if t[0] == ' ' then [] else [if t[0] == ',' then '.' else t[0]]) + Normalized(t[1..])
  }

  /** The normalised text has no space and no comma left, and is no longer than `t`. */
  lemma {:induction false} NormalizedClean(t: string)
    ensures forall k :: 0 <= k < |Normalized(t)| ==> Normalized(t)[k] != ' ' && Normalized(t)[k] != ','
    ensures |Normalized(t)| <= |t|
  {
    if t != [] {
      NormalizedClean(t[1..]);
    }
  }

  /** The characters of `t` other than spaces, in order. */
  function WithoutSpaces(t: string): (d: string)
    ensures (forall k :: 0 <= k < |t| ==> IsAmountRunChar(t[k])) ==> AllDigits(d)
  {
    if t == [] then []
    else (if t[0] == ' ' then [] else [t[0]]) + WithoutSpaces(t[1..])
  }

  /**
   * `float(n)` for the texts the scanner can hand it, `<digits>.<d><d>`
   * (the integer digits possibly empty), as hundredths.
   */
  function DecimalCents(n: string): Option<nat>
  {
    if |n| >= 3 && n[|n| - 3] == '.' && AllDigits(n[..|n| - 3])
       && IsDigit(n[|n| - 2]) && IsDigit(n[|n| - 1])
    then Some(DigitsValue(n[..|n| - 3]) * 100 + DigitValue(n[|n| - 2]) * 10 + DigitValue(n[|n| - 1]))
    else None
  }

  /**
   * The amount of a transaction in cents. For a token `[\d ]+,\d{2}` it is
   * the integer part, read without its spaces, times 100 plus the two
   * fraction digits; so it is never negative and has two fraction digits.
   */
  function ParseAmount(t: string): (r: Option<nat>)
    ensures IsAmountToken(t) ==>
      r == Some(DigitsValue(WithoutSpaces(t[..|t| - 3])) * 100
                + DigitValue(t[|t| - 2]) * 10 + DigitValue(t[|t| - 1]))
  {
    var n := Normalized(t);
    if IsAmountToken(t) then
      NormalizedToken(t);
      var w := WithoutSpaces(t[..|t| - 3]);
      assert n[..|n| - 3] == w && n[|n| - 3] == '.';
      assert n[|n| - 2] == t[|t| - 2] && n[|n| - 1] == t[|t| - 1];
      DecimalCents(n)
    else
      DecimalCents(n)
  }

  lemma {:induction false} NormalizedConcat(a: string, b: string)
    ensures Normalized(a + b) == Normalized(a) + Normalized(b)
  {
    if a == [] {
      assert a + b == b;
    } else {
      assert (a + b)[1..] == a[1..] + b;
      NormalizedConcat(a[1..], b);
    }
  }

  lemma {:induction false} NormalizedRun(a: string)
    requires forall k :: 0 <= k < |a| ==> IsAmountRunChar(a[k])
    ensures Normalized(a) == WithoutSpaces(a)
  {
    if a != [] {
      NormalizedRun(a[1..]);
    }
  }

  /** The normalised text of a token is its integer digits, a point and the two fraction digits. */
  lemma NormalizedToken(t: string)
    requires IsAmountToken(t)
    ensures Normalized(t) == WithoutSpaces(t[..|t| - 3]) + "." + t[|t| - 2..]
  {
    var c := |t| - 3;
    var a, f := t[..c], t[c + 1..];
    assert t == a + ([','] + f);
    assert AllDigits(f) by {
      assert f[0] == t[|t| - 2] && f[1] == t[|t| - 1];
    }
    NormalizedPieces(a, f);
  }

  /** An integer part, the comma, and digits normalise to the integer digits, a point and those digits. */
  lemma NormalizedPieces(a: string, f: string)
    requires forall k :: 0 <= k < |a| ==> IsAmountRunChar(a[k])
    requires AllDigits(f)
    ensures Normalized(a + ([','] + f)) == WithoutSpaces(a) + "." + f
  {
    assert Normalized([',']) == "." by {
      assert [','][1..] == [];
    }
    NormalizedConcat([','], f);
    NormalizedDigits(f);
    assert Normalized([','] + f) == "." + f;
    NormalizedConcat(a, [','] + f);
    NormalizedRun(a);
    assert WithoutSpaces(a) + ("." + f) == WithoutSpaces(a) + "." + f;
  }

  lemma {:induction false} NormalizedDigits(d: string)
    requires AllDigits(d)
    ensures Normalized(d) == d
  {
    if d != [] {
      NormalizedDigits(d[1..]);
    }
  }

  /** Spaces anywhere in an amount do not change its value. */
  lemma SpacesIgnored(a: string, b: string)
    ensures ParseAmount(a + " " + b) == ParseAmount(a + b)
  {
    NormalizedConcat(a + " ", b);
    NormalizedConcat(a, " ");
    NormalizedConcat(a, b);
    assert Normalized(" ") == [];
    assert Normalized(a + " " + b) == Normalized(a + b);
    assert ParseAmount(a + " " + b) == DecimalCents(Normalized(a + " " + b));
    assert ParseAmount(a + b) == DecimalCents(Normalized(a + b));
  }

  /** The token `<integer part>,<two digits>` that a statement prints for `cents`. */
  function Render(cents: nat): (t: string)
    ensures IsAmountToken(t)
  {
    DigitString(cents / 100) + "," + [DigitChar(cents % 100 / 10), DigitChar(cents % 10)]
  }

  lemma {:induction false} WithoutSpacesDigits(d: string)
    requires AllDigits(d)
    ensures WithoutSpaces(d) == d
  {
    if d != [] {
      WithoutSpacesDigits(d[1..]);
    }
  }

  /** Reading back a rendered amount gives the same number of cents. */
  lemma ParseRender(cents: nat)
    ensures ParseAmount(Render(cents)) == Some(cents)
  {
    var t := Render(cents);
    var d := DigitString(cents / 100);
    assert t[..|t| - 3] == d;
    WithoutSpacesDigits(d);
    assert cents / 100 * 100 + cents % 100 == cents;
    assert cents % 100 / 10 * 10 + cents % 10 == cents % 100;
  }

  /** 1234.56 is printed without a separator as `"1234,56"`. */
  lemma RenderExample()
    ensures Render(123456) == "1234,56"
  {
    assert DigitChar(1) == '1' && DigitChar(2) == '2' && DigitChar(3) == '3';
    assert DigitChar(4) == '4' && DigitChar(5) == '5' && DigitChar(6) == '6';
    assert DigitString(1) == "1";
    assert DigitString(12) == DigitString(1) + "2" == "12";
    assert DigitString(123) == DigitString(12) + "3" == "123";
    assert DigitString(1234) == DigitString(123) + "4" == "1234";
    assert Render(123456) == DigitString(1234) + "," + "56";
  }

  /** `"1 234,56"`, with a thousands separator, is 1234.56. */
  lemma ParseGroupedAmount()
    ensures ParseAmount("1 234,56") == Some(123456)
  {
    RenderExample();
    ParseRender(123456);
    var a, b := "1", "234,56";
    assert a + b == "1234,56";
    SpacesIgnored(a, b);
    var t := a + " " + b;
    assert |t| == 8 && t[0] == '1' && t[1] == ' ' && t[2..] == b;
    assert t == "1 234,56";
  }

  /** `"12,00"` is 12.00. */
  lemma ParsePlainAmount()
    ensures ParseAmount("12,00") == Some(1200)
  {
    assert DigitString(1) == "1";
    assert DigitString(12) == "12";
    assert Render(1200) == "12,00";
    ParseRender(1200);
  }
}
