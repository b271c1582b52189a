/** The thousands separator of the token counts. */
module DigitGrouping {
  import opened Prelude

  /** Groups of three from the right, joined by commas. */
  function Grouped(digits: string): string {
    if |digits| <= 3 then digits
    else Grouped(digits[..|digits| - 3]) + "," + digits[|digits| - 3..]
  }

  /** What the loop has printed after `k` digits. */
  ghost function Printed(digits: string, k: nat): string
    requires k <= |digits|
  {
    if k == 0 then ""
    else
      var i := k - 1;
      Printed(digits, i) + (if i > 0 && (|digits| - i) % 3 == 0 then "," else "") + [digits[i]]
  }

  lemma {:induction false} PrintedOfFront(digits: string, k: nat)
    requires k + 3 <= |digits|
    ensures Printed(digits, k) == Printed(digits[..|digits| - 3], k)
  {
    if k > 0 {
      PrintedOfFront(digits, k - 1);
    }
  }

  lemma PrintedStep(digits: string, i: nat)
    requires i < |digits|
    ensures Printed(digits, i + 1)
            == Printed(digits, i) + (if i > 0 && (|digits| - i) % 3 == 0 then "," else "") + [digits[i]]
  {
  }

  /** The last three digits are printed as one group. */
  lemma LastGroup(digits: string, printed: string)
    requires |digits| > 3 && printed == Printed(digits, |digits| - 3)
    ensures Printed(digits, |digits|) == printed + "," + digits[|digits| - 3..]
  {
    var n := |digits|;
    PrintedStep(digits, n - 3);
    PrintedStep(digits, n - 2);
    PrintedStep(digits, n - 1);
    ThreeChars(printed, digits[n - 3..]);
  }

  lemma ThreeChars(printed: string, last: string)
    requires |last| == 3
    ensures printed + "," + [last[0]] + "" + [last[1]] + "" + [last[2]] == printed + "," + last
  {
  }

  lemma FrontPrinted(digits: string, front: string, printed: string)
    requires |digits| > 3 && front == digits[..|digits| - 3] && printed == Printed(front, |front|)
    ensures Printed(digits, |digits| - 3) == printed
  {
    PrintedOfFront(digits, |digits| - 3);
  }

  /** Counting what remains at each digit groups from the right. */
  lemma {:induction false} PrintedIsGrouped(digits: string)
    ensures Printed(digits, |digits|) == Grouped(digits)
    decreases |digits|
  {
    if |digits| <= 3 {
      PrintedShort(digits, |digits|);
    } else {
      var front := digits[..|digits| - 3];
      var printed := Grouped(front);
      PrintedIsGrouped(front);
      FrontPrinted(digits, front, printed);
      LastGroup(digits, printed);
    }
  }

  lemma {:induction false} PrintedShort(digits: string, k: nat)
    requires k <= |digits| <= 3
    ensures Printed(digits, k) == digits[..k]
  {
    if k > 0 {
      PrintedShort(digits, k - 1);
    }
  }

  method Thousands(n: nat) returns (out: string)
    ensures out == Grouped(Decimal(n))
  {
    var s := Decimal(n);
    out := "";
    for i := 0 to |s|
      invariant out == Printed(s, i)
    {
      var remaining := |s| - i;
      if i > 0 && remaining % 3 == 0 {
        out := out + ",";
      }
      out := out + [s[i]];
    }
    PrintedIsGrouped(s);
  }

  function WithoutCommas(s: string): string {
    if s == "" then ""
    else WithoutCommas(s[..|s| - 1]) + if s[|s| - 1] == ',' then "" else [s[|s| - 1]]
  }

  lemma {:induction false} WithoutCommasSplits(a: string, b: string)
    ensures WithoutCommas(a + b) == WithoutCommas(a) + WithoutCommas(b)
  {
    if b == "" {
      assert a + b == a;
    } else {
      var n := |b| - 1;
      assert (a + b)[..|a + b| - 1] == a + b[..n];
      WithoutCommasSplits(a, b[..n]);
    }
  }

  lemma {:induction false} DigitsHaveNoComma(s: string)
    requires AllDigits(s)
    ensures WithoutCommas(s) == s
  {
    if s != "" {
      DigitsHaveNoComma(s[..|s| - 1]);
    }
  }

  lemma CommaDropped(before: string)
    ensures WithoutCommas(before + ",") == WithoutCommas(before)
  {
    var s := before + ",";
    assert s[..|s| - 1] == before && s[|s| - 1] == ',';
  }

  lemma OneMoreGroupKept(before: string, last: string)
    requires AllDigits(last)
    ensures WithoutCommas(before + "," + last) == WithoutCommas(before) + last
  {
    WithoutCommasSplits(before + ",", last);
    CommaDropped(before);
    DigitsHaveNoComma(last);
  }

  lemma {:induction false} GroupedKeepsDigits(digits: string)
    requires AllDigits(digits)
    ensures WithoutCommas(Grouped(digits)) == digits
  {
    if |digits| <= 3 {
      DigitsHaveNoComma(digits);
    } else {
      var front, last := digits[..|digits| - 3], digits[|digits| - 3..];
      GroupedKeepsDigits(front);
      OneMoreGroupKept(Grouped(front), last);
      assert front + last == digits;
    }
  }

  /** Commas stand where the number of characters that remain is a multiple of four. */
  predicate CommasInPlace(out: string) {
    forall i | 0 <= i < |out| :: out[i] == ',' <==> (|out| - i) % 4 == 0
  }

  lemma OneMoreGroup(before: string, last: string)
    requires CommasInPlace(before) && |last| == 3 && AllDigits(last)
    ensures CommasInPlace(before + "," + last)
  {
    var out := before + "," + last;
    forall i | 0 <= i < |out| ensures out[i] == ',' <==> (|out| - i) % 4 == 0 {
      if i < |before| {
        assert out[i] == before[i] && |out| - i == |before| - i + 4;
      } else if i > |before| {
        assert IsDigit(last[i - |before| - 1]);
      }
    }
  }

  lemma FewDigits(digits: string)
    requires AllDigits(digits) && |digits| <= 3
    ensures CommasInPlace(digits)
  {
    forall i | 0 <= i < |digits| ensures digits[i] != ',' && (|digits| - i) % 4 != 0 {
      assert IsDigit(digits[i]);
    }
  }

  /** A comma stands exactly where three digits, or three and a comma, and so on, remain. */
  lemma {:induction false} CommaPlaces(digits: string)
    requires AllDigits(digits) && digits != ""
    ensures |Grouped(digits)| == |digits| + (|digits| - 1) / 3 && Grouped(digits)[0] != ','
    ensures CommasInPlace(Grouped(digits))
  {
    if |digits| > 3 {
      var front, last := digits[..|digits| - 3], digits[|digits| - 3..];
      CommaPlaces(front);
      OneMoreGroup(Grouped(front), last);
    } else {
      FewDigits(digits);
      assert IsDigit(digits[0]);
    }
  }

  /** Behind an earlier comma stand the digits that stood behind it, and three more. */
  lemma BehindEarlierComma(before: string, last: string, i: nat)
    requires i < |before| && AllDigits(last)
    ensures WithoutCommas((before + "," + last)[i + 1..]) == WithoutCommas(before[i + 1..]) + last
  {
    assert (before + "," + last)[i + 1..] == before[i + 1..] + "," + last;
    OneMoreGroupKept(before[i + 1..], last);
  }

  lemma BehindLastComma(before: string, last: string)
    requires AllDigits(last)
    ensures WithoutCommas((before + "," + last)[|before| + 1..]) == last
  {
    assert (before + "," + last)[|before| + 1..] == last;
    DigitsHaveNoComma(last);
  }

  lemma NoCommaInLast(before: string, last: string, i: nat)
    requires AllDigits(last) && i < |before + "," + last| && (before + "," + last)[i] == ','
    ensures i < |before| ==> before[i] == ','
    ensures i <= |before|
  {
    var out := before + "," + last;
    forall k | |before| < k < |out| ensures out[k] != ',' {
      assert IsDigit(last[k - |before| - 1]);
    }
  }

  /** Whole groups of three digits, at least one, stand behind place `i`. */
  predicate GroupsBehind(out: string, i: nat)
    requires i < |out|
  {
    var rest := WithoutCommas(out[i + 1..]);
    rest != "" && |rest| % 3 == 0
  }

  lemma GroupsGrow(before: string, last: string, i: nat)
    requires i < |before| && GroupsBehind(before, i) && |last| == 3 && AllDigits(last)
    ensures GroupsBehind(before + "," + last, i)
  {
    BehindEarlierComma(before, last, i);
  }

  lemma GroupsAtLast(before: string, last: string)
    requires |last| == 3 && AllDigits(last)
    ensures GroupsBehind(before + "," + last, |before|)
  {
    BehindLastComma(before, last);
  }

  lemma {:induction false} DigitsAfterComma(digits: string, i: nat)
    requires AllDigits(digits) && i < |Grouped(digits)| && Grouped(digits)[i] == ','
    ensures GroupsBehind(Grouped(digits), i)
  {
    if |digits| <= 3 {
      FewDigits(digits);
    } else {
      var front, last := digits[..|digits| - 3], digits[|digits| - 3..];
      var before := Grouped(front);
      NoCommaInLast(before, last, i);
      if i < |before| {
        DigitsAfterComma(front, i);
        GroupsGrow(before, last, i);
      } else {
        GroupsAtLast(before, last);
      }
    }
  }

  /** Deleting the commas and reading the digits returns the number; commas stand in
      front of every full group of three digits but the first, and nowhere else. */
  lemma ThousandsReadBack(n: nat)
    ensures var out, d := Grouped(Decimal(n)), |Decimal(n)|;
            AllDigits(WithoutCommas(out)) && ReadDecimal(WithoutCommas(out)) == n
            && |out| == d + (d - 1) / 3
            && forall i | 0 <= i < |out| ::
                 (out[i] == ',' <==> (|out| - i) % 4 == 0)
                 && (out[i] == ',' ==> i > 0 && GroupsBehind(out, i))
  {
    DecimalReadsBack(n);
    GroupedKeepsDigits(Decimal(n));
    CommaPlaces(Decimal(n));
    var out := Grouped(Decimal(n));
    forall i | 0 <= i < |out| && out[i] == ','
      ensures GroupsBehind(out, i)
    {
      DigitsAfterComma(Decimal(n), i);
    }
  }
}
