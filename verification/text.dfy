/** String helpers shared by the naming and rendering tables: decimal
    rendering of unsigned integers (the backend's convert_to_string and join
    of integers, with the classic "C" locale pinned), prefix and substring
    tests, and the lexicographic order of std::string. */
module Text {
  import opened Wrappers

  predicate IsDigit(c: char) {
    '0' <= c <= '9'
  }

  predicate AllDigits(s: string) {
    forall i :: 0 <= i < |s| ==> IsDigit(s[i])
  }

  function DigitChar(d: nat): (c: char)
    requires d < 10
    ensures IsDigit(c)
  {
    ['0', '1', '2', '3', '4', '5', '6', '7', '8', '9'][d]
  }

  function DigitValue(c: char): (d: nat)
    requires IsDigit(c)
    ensures d < 10
  {
    c as int - '0' as int
  }

  lemma DigitRoundTrip(d: nat)
    requires d < 10
    ensures DigitValue(DigitChar(d)) == d
  {
  }

  /** Decimal rendering without leading zeros. */
  function NatToDecimal(n: nat): (s: string)
    ensures |s| >= 1 && AllDigits(s)
    ensures |s| > 1 ==> s[0] != '0'
    decreases n
  {
    if n < 10 then [DigitChar(n)] else NatToDecimal(n / 10) + [DigitChar(n % 10)]
  }

  /** The value of a string of decimal digits (empty string reads as 0). */
  function DigitsValue(s: string): nat
    requires AllDigits(s)
  {
    if s == [] then 0 else DigitsValue(s[..|s| - 1]) * 10 + DigitValue(s[|s| - 1])
  }

  /** Reads back a non-empty run of decimal digits. */
  function ParseDecimal(s: string): (r: Option<nat>)
    ensures r.Some? <==> (s != [] && AllDigits(s))
  {
    if s != [] && AllDigits(s) then Some(DigitsValue(s)) else None
  }

  lemma {:induction false} DecimalRoundTrip(n: nat)
    ensures ParseDecimal(NatToDecimal(n)) == Some(n)
    decreases n
  {
    var s := NatToDecimal(n);
    if n < 10 {
      DigitRoundTrip(n);
      assert s[..0] == [];
      assert DigitsValue(s) == DigitsValue([]) * 10 + DigitValue(DigitChar(n));
    } else {
      DecimalRoundTrip(n / 10);
      assert s[..|s| - 1] == NatToDecimal(n / 10);
      DigitRoundTrip(n % 10);
    }
  }

  /** NatToDecimal is injective: distinct numbers render differently. */
  lemma DecimalInjective(m: nat, n: nat)
    requires NatToDecimal(m) == NatToDecimal(n)
    ensures m == n
  {
    DecimalRoundTrip(m);
    DecimalRoundTrip(n);
  }

  predicate StartsWith(s: string, prefix: string) {
    |prefix| <= |s| && s[..|prefix|] == prefix
  }

  /** sub occurs in s starting at index i. */
  predicate OccursAt(s: string, sub: string, i: int) {
    0 <= i && i + |sub| <= |s| && s[i..i + |sub|] == sub
  }

  /** std::string::find(sub) != npos */
  function Contains(s: string, sub: string): bool
    decreases |s|
  {
    if StartsWith(s, sub) then true
    else if |s| <= |sub| then false
    else Contains(s[1..], sub)
  }

  /** Contains agrees with the occurrence-index definition of find. */
  lemma {:induction false} ContainsIffOccurs(s: string, sub: string)
    ensures Contains(s, sub) <==> exists i :: OccursAt(s, sub, i)
    decreases |s|
  {
    if StartsWith(s, sub) {
      assert OccursAt(s, sub, 0);
    } else if |s| <= |sub| {
      forall i | 0 <= i && i + |sub| <= |s|
        ensures !OccursAt(s, sub, i)
      {
        assert i == 0;
      }
    } else {
      ContainsIffOccurs(s[1..], sub);
      forall i | OccursAt(s[1..], sub, i)
        ensures OccursAt(s, sub, i + 1)
      {
        assert s[i + 1..i + 1 + |sub|] == s[1..][i..i + |sub|];
      }
      forall i | OccursAt(s, sub, i)
        ensures OccursAt(s[1..], sub, i - 1)
      {
        assert i != 0;
        assert s[i..i + |sub|] == s[1..][i - 1..i - 1 + |sub|];
      }
    }
  }

  lemma {:induction false} ContainsSuffix(s: string, sub: string)
    ensures Contains(s + sub, sub)
    decreases |s|
  {
    if s == [] {
      assert s + sub == sub;
    } else if !StartsWith(s + sub, sub) {
      assert (s + sub)[1..] == s[1..] + sub;
      ContainsSuffix(s[1..], sub);
    }
  }

  /** std::string operator<: lexicographic by character code, a proper
      prefix ordered first. */
  function StringLess(a: string, b: string): bool
    decreases |a|
  {
    if a == [] then b != []
    else if b == [] then false
    else if a[0] < b[0] then true
    else if a[0] == b[0] then StringLess(a[1..], b[1..])
    else false
  }

  lemma {:induction false} StringLessIrreflexive(a: string)
    ensures !StringLess(a, a)
    decreases |a|
  {
    if a != [] {
      StringLessIrreflexive(a[1..]);
    }
  }

  lemma {:induction false} StringLessTransitive(a: string, b: string, c: string)
    requires StringLess(a, b) && StringLess(b, c)
    ensures StringLess(a, c)
    decreases |a|
  {
    if a != [] {
      assert b != [] && c != [];
      if a[0] == b[0] && b[0] == c[0] {
        StringLessTransitive(a[1..], b[1..], c[1..]);
      }
    }
  }

  lemma {:induction false} StringLessTotal(a: string, b: string)
    requires a != b
    ensures StringLess(a, b) || StringLess(b, a)
    decreases |a|
  {
    if a != [] && b != [] && a[0] == b[0] {
      assert a == [a[0]] + a[1..] && b == [b[0]] + b[1..];
      StringLessTotal(a[1..], b[1..]);
    }
  }
}
