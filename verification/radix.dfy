/** JavaScript's `Number.prototype.toString(radix)` on non-negative integers
    (and its decimal form on all integers), with the inverse parse. */
module Radix {
  import opened Maybe
  import opened Text

  /** The digit `d` as JavaScript writes it: `0`-`9`, then lower-case `a`-`z`. */
  function DigitChar(d: nat): (c: char)
    requires d < 36
    ensures DigitValue(c) == Some(d)
    ensures IsLowerDigit(c)
  {
    if d < 10 then ('0' as int + d) as char else ('a' as int + d - 10) as char
  }

  predicate IsLowerDigit(c: char) {
    '0' <= c <= '9' || 'a' <= c <= 'z'
  }

  /** Value of a base-36 digit in either case. */
  function DigitValue(c: char): Option<nat> {
    if '0' <= c <= '9' then Some(c as int - '0' as int)
    else if 'a' <= c <= 'z' then Some(c as int - 'a' as int + 10)
    else if 'A' <= c <= 'Z' then Some(c as int - 'A' as int + 10)
    else None
  }

  lemma UpperKeepsDigitValue(c: char)
    ensures DigitValue(UpperChar(c)) == DigitValue(c)
  {
  }

  predicate IsDigits(s: string, radix: nat) {
    forall i :: 0 <= i < |s| ==> DigitValue(s[i]).Some? && DigitValue(s[i]).value < radix
  }

  /** `n.toString(radix)`: most significant digit first, no leading zeros, "0" for zero. */
  function ToRadix(n: nat, radix: nat): (s: string)
    requires 2 <= radix <= 36
    ensures 1 <= |s|
    ensures IsDigits(s, radix)
    ensures forall i :: 0 <= i < |s| ==> IsLowerDigit(s[i])
    decreases n
  {
    if n < radix then [DigitChar(n)]
    else
      DivShrinks(n, radix);
      var high, low := ToRadix(n / radix, radix), DigitChar(n % radix);
      assert DigitValue(low).value < radix;
      AppendDigit(high, low, radix);
      high + [low]
  }

  lemma DivShrinks(n: nat, radix: nat)
    requires 2 <= radix <= n
    ensures 1 <= n / radix < n && n % radix < radix
  {
  }

  lemma AppendDigit(s: string, c: char, radix: nat)
    requires IsDigits(s, radix) && DigitValue(c).Some? && DigitValue(c).value < radix
    requires forall i :: 0 <= i < |s| ==> IsLowerDigit(s[i])
    requires IsLowerDigit(c)
    ensures IsDigits(s + [c], radix)
    ensures forall i :: 0 <= i < |s + [c]| ==> IsLowerDigit((s + [c])[i])
  {
  }

  /** The value a digit string denotes in base `radix`. */
  function FromRadix(s: string, radix: nat): nat
    requires 2 <= radix <= 36
    requires IsDigits(s, radix)
  {
    if |s| == 0 then 0
    else
      PrefixDigits(s, radix);
      FromRadix(s[..|s| - 1], radix) * radix + DigitValue(s[|s| - 1]).value
  }

  lemma PrefixDigits(s: string, radix: nat)
    requires IsDigits(s, radix) && |s| > 0
    ensures IsDigits(s[..|s| - 1], radix)
  {
    assert forall i :: 0 <= i < |s| - 1 ==> s[..|s| - 1][i] == s[i];
  }

  /** Appending a digit shifts the value one place and adds the digit. */
  lemma FromRadixSnoc(t: string, c: char, radix: nat)
    requires 2 <= radix <= 36
    requires IsDigits(t, radix)
    requires DigitValue(c).Some? && DigitValue(c).value < radix
    ensures IsDigits(t + [c], radix)
    ensures FromRadix(t + [c], radix) == FromRadix(t, radix) * radix + DigitValue(c).value
  {
    assert (t + [c])[..|t|] == t;
  }

  /** Parsing what `toString` printed gives the number back. Stated for the
      two radixes the controllers use (36 for references, 10 for messages),
      which keeps the arithmetic linear for the solver. */
  lemma {:induction false} FromRadixToRadix(n: nat, radix: nat)
    requires radix == 36 || radix == 10
    ensures FromRadix(ToRadix(n, radix), radix) == n
    decreases n
  {
    if n >= radix {
      var q, r := n / radix, n % radix;
      FromRadixToRadix(q, radix);
      var t := ToRadix(q, radix);
      assert ToRadix(n, radix) == t + [DigitChar(r)];
      FromRadixSnoc(t, DigitChar(r), radix);
    } else {
      SingleDigit(n, radix);
    }
  }

  lemma SingleDigit(n: nat, radix: nat)
    requires 2 <= radix <= 36 && n < radix
    ensures FromRadix(ToRadix(n, radix), radix) == n
  {
    var c := DigitChar(n);
    assert ToRadix(n, radix) == [c];
    assert [c][..0] == [];
    assert FromRadix([c], radix) == FromRadix([], radix) * radix + n;
  }

  /** Upper-casing a digit string does not change its value. */
  lemma FromRadixToUpper(s: string, radix: nat)
    requires 2 <= radix <= 36
    requires IsDigits(s, radix)
    ensures IsDigits(ToUpper(s), radix)
    ensures FromRadix(ToUpper(s), radix) == FromRadix(s, radix)
  {
    var u := ToUpper(s);
    forall i | 0 <= i < |s|
      ensures DigitValue(u[i]) == DigitValue(s[i])
    {
      UpperKeepsDigitValue(s[i]);
    }
    SameDigitsSameValue(s, u, radix);
  }

  /** Two strings whose digits have the same values denote the same number. */
  lemma {:induction false} SameDigitsSameValue(s: string, t: string, radix: nat)
    requires 2 <= radix <= 36
    requires IsDigits(s, radix) && |t| == |s|
    requires forall i :: 0 <= i < |s| ==> DigitValue(t[i]) == DigitValue(s[i])
    ensures IsDigits(t, radix)
    ensures FromRadix(t, radix) == FromRadix(s, radix)
    decreases |s|
  {
    if |s| > 0 {
      var si, ti := s[..|s| - 1], t[..|t| - 1];
      assert forall i :: 0 <= i < |si| ==> si[i] == s[i] && ti[i] == t[i];
      SameDigitsSameValue(si, ti, radix);
      assert FromRadix(t, radix) == FromRadix(ti, radix) * radix + DigitValue(t[|t| - 1]).value;
    }
  }

  /** Decimal rendering of an integer, as in a template literal `${n}`. */
  function IntToDecimal(n: int): string {
    if n < 0 then "-" + ToRadix(-n, 10) else ToRadix(n, 10)
  }

  /** Inverse of `IntToDecimal` on the strings it produces. */
  function DecimalToInt(s: string): Option<int> {
    if |s| > 0 && s[0] == '-' then
      (if |s| > 1 && IsDigits(s[1..], 10) then var v: int := FromRadix(s[1..], 10); Some(-v) else None)
    else if |s| > 0 && IsDigits(s, 10) then Some(FromRadix(s, 10))
    else None
  }

  lemma DecimalRoundTrip(n: int)
    ensures DecimalToInt(IntToDecimal(n)) == Some(n)
  {
    if n < 0 {
      NegativeRoundTrip(-n);
    } else {
      var d := ToRadix(n, 10);
      FromRadixToRadix(n, 10);
      assert d[0] != '-';
    }
  }

  lemma NegativeRoundTrip(m: int)
    requires m > 0
    ensures DecimalToInt("-" + ToRadix(m, 10)) == Some(-m)
  {
    var d := ToRadix(m, 10);
    var s := "-" + d;
    assert s[1..] == d;
    FromRadixToRadix(m, 10);
  }
}
