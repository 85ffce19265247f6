/** Numbers as text: decimal and lower-case hexadecimal, without leading zeros. */
module Numerals {
  import opened Wire

  predicate IsBase(base: nat) {
    base == 10 || base == 16
  }

  function DigitChar(d: nat): (ch: char)
    requires d < 16
  {
    "0123456789abcdef"[d]
  }

  function DigitValue(ch: char, base: nat): (r: Option<nat>)
    requires IsBase(base)
    ensures r.Some? ==> r.value < base
  {
    if '0' <= ch <= '9' then Some(ch as int - '0' as int)
    else if base == 16 && 'a' <= ch <= 'f' then Some(ch as int - 'a' as int + 10)
    else None
  }

  lemma DigitRead(d: nat, base: nat)
    requires IsBase(base) && d < base
    ensures DigitValue(DigitChar(d), base) == Some(d)
  {
  }

  function Numeral(n: nat, base: nat): (s: string)
    requires IsBase(base)
    ensures |s| > 0
  {
    if n < base then [DigitChar(n)] else Numeral(n / base, base) + [DigitChar(n % base)]
  }

  /** The digits at the front of a text. */
  function Leading(s: string, base: nat): (k: nat)
    requires IsBase(base)
    ensures k <= |s|
    ensures forall i :: 0 <= i < k ==> DigitValue(s[i], base).Some?
  {
    if |s| == 0 || DigitValue(s[0], base).None? then 0 else 1 + Leading(s[1..], base)
  }

  function NumberOf(s: string, base: nat): nat
    requires IsBase(base)
    requires forall i :: 0 <= i < |s| ==> DigitValue(s[i], base).Some?
  {
    if |s| == 0 then 0 else NumberOf(s[..|s| - 1], base) * base + DigitValue(s[|s| - 1], base).value
  }

  lemma {:induction false} NumeralIsRead(n: nat, base: nat)
    requires IsBase(base)
    ensures forall i :: 0 <= i < |Numeral(n, base)| ==> DigitValue(Numeral(n, base)[i], base).Some?
    ensures NumberOf(Numeral(n, base), base) == n
    decreases n
  {
    hide DigitChar, DigitValue, NumberOf;
    DigitRead(n % base, base);
    if n >= base {
      NumeralIsRead(n / base, base);
      NumberOfAppend(Numeral(n / base, base), DigitChar(n % base), base);
      assert n == (n / base) * base + n % base;
    } else {
      assert n % base == n;
      NumberOfAppend("", DigitChar(n), base);
      assert "" + [DigitChar(n)] == [DigitChar(n)];
      NoNumber(base);
    }
  }

  lemma NoNumber(base: nat)
    requires IsBase(base)
    ensures NumberOf("", base) == 0
  {
  }

  lemma NumberOfAppend(s: string, ch: char, base: nat)
    requires IsBase(base) && DigitValue(ch, base).Some?
    requires forall i :: 0 <= i < |s| ==> DigitValue(s[i], base).Some?
    ensures forall i :: 0 <= i < |s + [ch]| ==> DigitValue((s + [ch])[i], base).Some?
    ensures NumberOf(s + [ch], base) == NumberOf(s, base) * base + DigitValue(ch, base).value
  {
    hide DigitValue;
    assert (s + [ch])[..|s|] == s;
  }

  lemma {:induction false} LeadingStops(s: string, rest: string, base: nat)
    requires IsBase(base)
    requires forall i :: 0 <= i < |s| ==> DigitValue(s[i], base).Some?
    requires |rest| > 0 && DigitValue(rest[0], base).None?
    ensures Leading(s + rest, base) == |s|
    decreases |s|
  {
    if |s| == 0 {
      assert s + rest == rest;
    } else {
      assert (s + rest)[1..] == s[1..] + rest;
      LeadingStops(s[1..], rest, base);
    }
  }

  /** A numeral takes no more digits than its value allows. */
  lemma {:induction false} HexLength(n: nat, k: nat)
    requires n < Power16(k) && k > 0
    ensures |Numeral(n, 16)| <= k
    decreases k
  {
    if n >= 16 { HexLength(n / 16, k - 1); }
  }

  function Power16(k: nat): nat {
    if k == 0 then 1 else 16 * Power16(k - 1)
  }
}
