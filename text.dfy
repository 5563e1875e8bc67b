/** Character-level helpers shared by the store, the API and the UI models:
    decimal printing as Go's fmt verbs `%d` and `%03d` do it, the inverse
    parse used to prove those printers injective, ASCII lower-casing and
    substring search. */
module Text {

  /** Go's `int64`. */
  type Int64 = x: int | -0x8000_0000_0000_0000 <= x < 0x8000_0000_0000_0000

  predicate IsDigit(c: char) {
    '0' <= c <= '9'
  }

  predicate AllDigits(s: string) {
    forall i :: 0 <= i < |s| ==> IsDigit(s[i])
  }

  function DigitChar(d: nat): (c: char)
    requires d < 10
    ensures IsDigit(c) && DigitValue(c) == d
  {
    (48 + d) as char
  }

  function DigitValue(c: char): nat
    requires IsDigit(c)
  {
    c as int - 48
  }

  /** The decimal digits of `n`, most significant first, with no leading
      zero: what `%d` prints for a non-negative value. */
  function DecimalDigits(n: nat): (s: string)
    ensures 1 <= |s| && AllDigits(s)
    ensures |s| > 1 ==> s[0] != '0'
    ensures n < 10 <==> |s| == 1
    decreases n
  {
    if n < 10 then [DigitChar(n)] else DecimalDigits(n / 10) + [DigitChar(n % 10)]
  }

  /** The value of a string of decimal digits; leading zeros add nothing. */
  function ParseDecimal(s: string): nat
    requires AllDigits(s)
    decreases |s|
  {
    if s == [] then 0 else ParseDecimal(s[..|s| - 1]) * 10 + DigitValue(s[|s| - 1])
  }

  lemma {:induction false} ParseDecimalDigits(n: nat)
    ensures ParseDecimal(DecimalDigits(n)) == n
    decreases n
  {
    var s := DecimalDigits(n);
    if n >= 10 {
      assert s[..|s| - 1] == DecimalDigits(n / 10);
      ParseDecimalDigits(n / 10);
    } else {
      assert s[..|s| - 1] == [];
    }
  }

  /** Distinct numbers print differently: `%d` is injective on naturals. */
  lemma DecimalDigitsInjective(m: nat, n: nat)
    requires DecimalDigits(m) == DecimalDigits(n)
    ensures m == n
  {
    ParseDecimalDigits(m);
    ParseDecimalDigits(n);
  }

  lemma {:induction false} ParseLeadingZero(s: string)
    requires AllDigits(s)
    ensures ParseDecimal("0" + s) == ParseDecimal(s)
    decreases |s|
  {
    if s != [] {
      var t := "0" + s;
      assert t[..|t| - 1] == "0" + s[..|s| - 1];
      ParseLeadingZero(s[..|s| - 1]);
    }
  }

  /** `n` zero characters. */
  function Zeros(n: nat): string {
    seq(n, _ => '0')
  }

  /** `s` padded on the left with '0' up to `width` characters, as the
      zero flag of `%0Nd` pads a non-negative value. */
  function PadZeros(s: string, width: nat): string {
    if |s| < width then Zeros(width - |s|) + s else s
  }

  /** Padding reaches the width, keeps `s` as its suffix and puts only
      zeros in front of it. */
  lemma PadZerosShape(s: string, width: nat)
    ensures |PadZeros(s, width)| == if |s| < width then width else |s|
    ensures PadZeros(s, width)[|PadZeros(s, width)| - |s|..] == s
    ensures forall i :: 0 <= i < |PadZeros(s, width)| - |s| ==> PadZeros(s, width)[i] == '0'
  {
    var r := PadZeros(s, width);
    if |s| < width {
      assert r == Zeros(width - |s|) + s;
      assert r[|r| - |s|..] == s;
    }
  }

  /** Leading zeros do not change the value of a digit string. */
  lemma {:induction false} ParseZerosPrefix(n: nat, s: string)
    requires AllDigits(s)
    ensures AllDigits(Zeros(n) + s)
    ensures ParseDecimal(Zeros(n) + s) == ParseDecimal(s)
    decreases n
  {
    if n > 0 {
      ParseZerosPrefix(n - 1, s);
      assert Zeros(n) + s == "0" + (Zeros(n - 1) + s);
      ParseLeadingZero(Zeros(n - 1) + s);
    } else {
      assert Zeros(n) + s == s;
    }
  }

  lemma ParsePadZeros(s: string, width: nat)
    requires AllDigits(s)
    ensures AllDigits(PadZeros(s, width))
    ensures ParseDecimal(PadZeros(s, width)) == ParseDecimal(s)
  {
    if |s| < width {
      ParseZerosPrefix(width - |s|, s);
    }
  }

  /** `fmt.Sprintf(prefix + "%03d", n)`: the prefix, then `n` in decimal,
      zero-padded to at least three digits. */
  function FormatSerial(prefix: string, n: nat): (id: string)
  {
    prefix + PadZeros(DecimalDigits(n), 3)
  }

  /** The serial printed after `prefix` reads back as `n`. */
  lemma FormatSerialParses(prefix: string, n: nat)
    ensures |FormatSerial(prefix, n)| >= |prefix| + 3
    ensures FormatSerial(prefix, n)[..|prefix|] == prefix
    ensures AllDigits(FormatSerial(prefix, n)[|prefix|..])
    ensures ParseDecimal(FormatSerial(prefix, n)[|prefix|..]) == n
  {
    var id := FormatSerial(prefix, n);
    assert id[|prefix|..] == PadZeros(DecimalDigits(n), 3);
    PadZerosShape(DecimalDigits(n), 3);
    ParsePadZeros(DecimalDigits(n), 3);
    ParseDecimalDigits(n);
  }

  /** Two serials under one prefix are equal only when their numbers are. */
  lemma FormatSerialInjective(prefix: string, m: nat, n: nat)
    requires FormatSerial(prefix, m) == FormatSerial(prefix, n)
    ensures m == n
  {
    FormatSerialParses(prefix, m);
    FormatSerialParses(prefix, n);
  }

  /** What `fmt.Sprintf("%d", x)` prints for any integer. */
  function FormatInt(x: int): (s: string)
    ensures x < 0 ==> |s| >= 2 && s[0] == '-' && s[1..] == DecimalDigits(-x)
    ensures x >= 0 ==> s == DecimalDigits(x)
  {
    if x < 0 then "-" + DecimalDigits(-x) else DecimalDigits(x)
  }

  function LowerChar(c: char): (l: char)
    ensures 'A' <= c <= 'Z' ==> 'a' <= l <= 'z' && l as int == c as int + 32
    ensures !('A' <= c <= 'Z') ==> l == c
  {
    if 'A' <= c <= 'Z' then (c as int + 32) as char else c
  }

  /** `strings.ToLower` restricted to ASCII letters. */
  function ToLower(s: string): (r: string)
    ensures |r| == |s|
    ensures forall i :: 0 <= i < |s| ==> r[i] == LowerChar(s[i])
  {
    seq(|s|, i requires 0 <= i < |s| => LowerChar(s[i]))
  }

  /** `s` and `t` differ at most in the case of ASCII letters, position by
      position. */
  predicate SameIgnoringCase(s: string, t: string) {
    && |s| == |t|
    && forall i :: 0 <= i < |s| ==>
         || s[i] == t[i]
         || ('A' <= s[i] <= 'Z' && t[i] as int == s[i] as int + 32)
         || ('A' <= t[i] <= 'Z' && s[i] as int == t[i] as int + 32)
  }

  /** Lower-casing once is enough, and it changes letters only in case: the
      result has no upper-case ASCII letter left. */
  lemma ToLowerIdempotent(s: string)
    ensures ToLower(ToLower(s)) == ToLower(s)
    ensures SameIgnoringCase(s, ToLower(s))
    ensures forall i :: 0 <= i < |s| ==> !('A' <= ToLower(s)[i] <= 'Z')
  {
    var l := ToLower(s);
    assert forall i :: 0 <= i < |l| ==> LowerChar(l[i]) == l[i];
  }

  /** Strings that differ only in the case of ASCII letters lower-case to the
      same string: comparing lower-cased strings ignores case. */
  lemma ToLowerIgnoresCase(s: string, t: string)
    requires SameIgnoringCase(s, t)
    ensures ToLower(s) == ToLower(t)
  {
    assert forall i :: 0 <= i < |s| ==> ToLower(s)[i] == ToLower(t)[i];
  }

  /** `strings.Contains(s, sub)`: `sub` occurs somewhere in `s`. */
  predicate Contains(s: string, sub: string)
    decreases |s|
  {
    |sub| <= |s| && (s[..|sub|] == sub || (|s| > 0 && Contains(s[1..], sub)))
  }

  /** `sub` occurs in `s` starting at offset `i`. */
  predicate OccursAt(s: string, sub: string, i: int) {
    0 <= i <= |s| - |sub| && s[i..i + |sub|] == sub
  }

  /** `Contains` holds exactly when `sub` sits at some offset of `s`. */
  lemma {:induction false} ContainsAt(s: string, sub: string)
    ensures Contains(s, sub) <==> exists i :: OccursAt(s, sub, i)
    decreases |s|
  {
    if |sub| <= |s| && s[..|sub|] != sub && |s| > 0 {
      ContainsAt(s[1..], sub);
      if exists i :: OccursAt(s, sub, i) {
        var i :| OccursAt(s, sub, i);
        assert i != 0;
        assert OccursAt(s[1..], sub, i - 1);
      }
      if Contains(s[1..], sub) {
        var j :| OccursAt(s[1..], sub, j);
        assert OccursAt(s, sub, j + 1);
      }
    } else if |sub| <= |s| && s[..|sub|] == sub {
      assert OccursAt(s, sub, 0);
    }
  }
}
