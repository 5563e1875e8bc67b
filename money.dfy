/** InsureQuote's `formatMoney`: a dollar amount's whole part printed with a
    comma between each group of three digits. The amount arrives here as its
    `int64` whole part; `TruncateToInt` states the conversion that feeds it. */
module Money {
  import opened Text

  /** The decimal digits `d` grouped in threes from the right, commas between
      the groups. */
  function GroupThousands(d: string): string
    decreases |d|
  {
    if |d| <= 3 then d else GroupThousands(d[..|d| - 3]) + "," + d[|d| - 3..]
  }

  /** What `formatMoney` prints for the whole part `x`: "$" or "-$", then the
      grouped digits of |x|. */
  function MoneyText(x: int): string {
    (if x < 0 then "-$" else "$") + GroupThousands(DecimalDigits(if x < 0 then -x else x))
  }

  /** Go's float-to-integer conversion: the fraction is dropped, rounding
      toward zero. */
  function TruncateToInt(amount: real): (n: int)
    ensures amount >= 0.0 ==> n as real <= amount < n as real + 1.0
    ensures amount < 0.0 ==> n as real - 1.0 < amount <= n as real
  {
    if amount >= 0.0 then amount.Floor else -((-amount).Floor)
  }

  /** Prints `intPart`: the digits of its absolute value, as they are when
      there are at most three of them and grouped by `InsertCommas`
      otherwise, behind "$" or "-$". */
  method FormatMoney(intPart: Int64) returns (s: string)
    ensures s == MoneyText(intPart)
  {
    var str := FormatInt(intPart);
    if intPart < 0 {
      str := str[1..];
    }
    ghost var x: int := intPart;
    assert str == DecimalDigits(if x < 0 then -x else x);
    var n := |str|;
    if n <= 3 {
      if intPart < 0 {
        return "-$" + str;
      }
      return "$" + str;
    }
    var result := InsertCommas(str);
    if intPart < 0 {
      return "-$" + result;
    }
    return "$" + result;
  }

  /** The builder loop of `formatMoney`: the leading short group first, then
      every group of three, a comma after each group but the last. */
  method InsertCommas(str: string) returns (result: string)
    ensures result == GroupThousands(str)
  {
    var n := |str|;
    result := "";
    var offset := n % 3;
    if offset > 0 {
      result := result + str[..offset];
      if n > 3 {
        result := result + ",";
      }
    }
    BuiltStart(str);
    var i := offset;
    ghost var groupsLeft := n / 3;
    while i < n
      invariant offset <= i <= n && n - i == 3 * groupsLeft
      invariant result == Built(str, i)
    {
      BuiltStep(str, i);
      result := result + str[i..i + 3];
      if i + 3 < n {
        result := result + ",";
      }
      i := i + 3;
      groupsLeft := groupsLeft - 1;
    }
    BuiltEnd(str);
  }

  /** What the builder holds once the first `i` digits are written: their
      groups, and the comma that follows them when digits remain. */
  ghost function Built(d: string, i: nat): string
    requires i <= |d|
  {
    if i == 0 then "" else GroupThousands(d[..i]) + (if i < |d| then "," else "")
  }

  /** The short leading group, with its comma when more digits follow, and
      the number of full groups after it. */
  lemma BuiltStart(d: string)
    ensures var offset := |d| % 3;
      && offset <= |d| && |d| - offset == 3 * (|d| / 3)
      && Built(d, offset) == (if offset > 0 then d[..offset] + (if |d| > 3 then "," else "") else "")
  {
    var offset := |d| % 3;
    if offset > 0 {
      assert GroupThousands(d[..offset]) == d[..offset];
    }
  }

  /** Once every digit is written the builder holds the grouped digits. */
  lemma BuiltEnd(d: string)
    ensures Built(d, |d|) == GroupThousands(d)
  {
    assert d[..|d|] == d;
  }

  /** Writing the next full group, and a comma unless it is the last. */
  lemma BuiltStep(d: string, i: nat)
    requires i + 3 <= |d|
    ensures Built(d, i + 3) == Built(d, i) + d[i..i + 3] + (if i + 3 < |d| then "," else "")
  {
    var p := d[..i + 3];
    if i > 0 {
      assert p[..|p| - 3] == d[..i];
      assert p[|p| - 3..] == d[i..i + 3];
    }
  }

  /** `s` with every comma removed. */
  function StripCommas(s: string): (r: string)
    ensures |r| <= |s|
  {
    if s == [] then [] else (if s[0] == ',' then [] else [s[0]]) + StripCommas(s[1..])
  }

  lemma {:induction false} StripCommasAppend(a: string, b: string)
    ensures StripCommas(a + b) == StripCommas(a) + StripCommas(b)
    decreases |a|
  {
    if a != [] {
      var h := if a[0] == ',' then [] else [a[0]];
      assert (a + b)[0] == a[0];
      assert (a + b)[1..] == a[1..] + b;
      assert StripCommas(a + b) == h + StripCommas(a[1..] + b);
      StripCommasAppend(a[1..], b);
      assert StripCommas(a) == h + StripCommas(a[1..]);
    } else {
      assert a + b == b;
    }
  }

  lemma {:induction false} StripDigits(d: string)
    requires AllDigits(d)
    ensures StripCommas(d) == d
    decreases |d|
  {
    if d != [] {
      StripDigits(d[1..]);
    }
  }

  /** Grouping only inserts commas: removing them gives the digits back. */
  lemma {:induction false} StripGroupThousands(d: string)
    requires AllDigits(d)
    ensures StripCommas(GroupThousands(d)) == d
    decreases |d|
  {
    if |d| <= 3 {
      StripDigits(d);
    } else {
      var p := d[..|d| - 3];
      var t := d[|d| - 3..];
      var g := GroupThousands(p);
      assert GroupThousands(d) == (g + ",") + t;
      StripGroupThousands(p);
      StripDigits(t);
      StripCommasAppend(g + ",", t);
      StripCommasAppend(g, ",");
      assert StripCommas(",") == [];
      assert StripCommas(g + ",") == p;
      assert p + t == d;
    }
  }

  /** Commas sit exactly where the distance to the end is a multiple of four,
      and every other character is a digit. */
  ghost predicate CommaLayout(r: string) {
    forall i :: 0 <= i < |r| ==> (r[i] == ',' <==> (|r| - i) % 4 == 0) && (r[i] != ',' ==> IsDigit(r[i]))
  }

  /** Appending a comma and a group of three digits keeps the layout. */
  lemma CommaLayoutAppend(g: string, t: string)
    requires CommaLayout(g) && |t| == 3 && AllDigits(t)
    ensures CommaLayout(g + "," + t)
  {
    var r := g + "," + t;
    forall i | 0 <= i < |r|
      ensures (r[i] == ',' <==> (|r| - i) % 4 == 0) && (r[i] != ',' ==> IsDigit(r[i]))
    {
      if i < |g| {
        assert r[i] == g[i];
        assert |r| - i == (|g| - i) + 4;
      } else if i > |g| {
        assert r[i] == t[i - |g| - 1];
      }
    }
  }

  /** The layout of the grouped digits: one comma per three digits after the
      first, placed exactly where the distance to the end is a multiple of
      four, so there is never a comma in front or at the end; every other
      character is a digit. */
  lemma {:induction false} GroupLayout(d: string)
    requires AllDigits(d) && |d| >= 1
    ensures |GroupThousands(d)| == |d| + (|d| - 1) / 3
    ensures CommaLayout(GroupThousands(d))
    decreases |d|
  {
    if |d| > 3 {
      var p := d[..|d| - 3];
      var t := d[|d| - 3..];
      GroupLayout(p);
      assert GroupThousands(d) == GroupThousands(p) + "," + t;
      CommaLayoutAppend(GroupThousands(p), t);
    } else {
      var r := GroupThousands(d);
      assert r == d;
      forall i | 0 <= i < |r| ensures (r[i] == ',' <==> (|r| - i) % 4 == 0) && (r[i] != ',' ==> IsDigit(r[i])) {
        assert IsDigit(d[i]);
      }
    }
  }

  /** The size of the leading group of `n` digits, and the number of full
      groups after it. */
  lemma LeadingSize(n: nat)
    requires n >= 1
    ensures var g := if n % 3 == 0 then 3 else n % 3;
      && 1 <= g <= 3 && g <= n
      && n - g == 3 * ((n - g) / 3) && (n - g) % 3 == 0
      && (n - 1) / 3 == (n - g) / 3
  {
  }

  /** The first group holds |d| % 3 digits, or 3 when that is 0, and is
      followed by a comma when more digits remain. */
  lemma LeadingGroup(d: string)
    requires AllDigits(d) && |d| >= 1
    ensures var g := if |d| % 3 == 0 then 3 else |d| % 3;
      && g <= |GroupThousands(d)|
      && GroupThousands(d)[..g] == d[..g]
      && (|d| > 3 ==> GroupThousands(d)[g] == ',')
  {
    var g := if |d| % 3 == 0 then 3 else |d| % 3;
    LeadingSize(|d|);
    var q := (|d| - g) / 3;
    LeadingGroupPrefix(d, g);
    if |d| > 3 {
      GroupLayout(d);
      var r := GroupThousands(d);
      assert |r| - g == 4 * q;
      assert (|r| - g) % 4 == 0;
    }
  }

  lemma {:induction false} LeadingGroupPrefix(d: string, g: nat)
    requires 1 <= g <= 3 && g <= |d| && (|d| - g) % 3 == 0
    ensures g <= |GroupThousands(d)| && GroupThousands(d)[..g] == d[..g]
    decreases |d|
  {
    if |d| > 3 {
      var p := d[..|d| - 3];
      LeadingGroupPrefix(p, g);
      assert GroupThousands(d) == GroupThousands(p) + "," + d[|d| - 3..];
      assert p[..g] == d[..g];
    }
  }

  /** Grouped digits neither start nor end with a comma. */
  lemma GroupEdges(d: string)
    requires AllDigits(d) && |d| >= 1
    ensures |GroupThousands(d)| >= 1
    ensures GroupThousands(d)[0] != ',' && GroupThousands(d)[|GroupThousands(d)| - 1] != ','
  {
    GroupLayout(d);
    LeadingSize(|d|);
    var r := GroupThousands(d);
    var g := if |d| % 3 == 0 then 3 else |d| % 3;
    var q := (|d| - g) / 3;
    assert |r| == 4 * q + g;
    assert |r| % 4 == g;
  }

  /** The output is the sign and dollar prefix followed by the grouped digits
      of the absolute value. */
  lemma MoneyTextSplit(x: int)
    ensures var k := if x < 0 then 2 else 1;
      var s := MoneyText(x);
      && |s| >= k
      && s[..k] == (if x < 0 then "-$" else "$")
      && s[k..] == GroupThousands(DecimalDigits(if x < 0 then -x else x))
  {
  }

  /** What `formatMoney` promises about its output: the sign and dollar
      prefix, no comma right after it or at the end, the digits of |x| back
      once the commas are removed, and no comma at all below 1000. */
  lemma MoneyTextProperties(x: int)
    ensures var k := if x < 0 then 2 else 1;
      var s := MoneyText(x);
      var a := if x < 0 then -x else x;
      && |s| > k
      && s[..k] == (if x < 0 then "-$" else "$")
      && s[k] != ',' && s[|s| - 1] != ','
      && StripCommas(s[k..]) == DecimalDigits(a)
      && ParseDecimal(StripCommas(s[k..])) == a
      && (|DecimalDigits(a)| <= 3 ==> s[k..] == DecimalDigits(a))
  {
    var a := if x < 0 then -x else x;
    var d := DecimalDigits(a);
    MoneyTextSplit(x);
    GroupEdges(d);
    StripGroupThousands(d);
    ParseDecimalDigits(a);
  }

  /** An amount strictly between -1 and 0 prints as "$0": the whole part is
      0, so no minus sign survives. */
  lemma SmallNegativeAmount(amount: real)
    requires -1.0 < amount < 0.0
    ensures TruncateToInt(amount) == 0
    ensures MoneyText(TruncateToInt(amount)) == "$0"
  {
    assert DecimalDigits(0) == "0";
  }
}
