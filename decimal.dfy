/**
 * Python's `str(n)` for an integer (what an f-string prints for a return
 * code, which is negative when the child was killed by a signal), and the
 * reading that recovers the integer from such text.
 */
module Decimal {
  import opened Optional

  predicate IsDigit(c: char)
  {
    '0' <= c <= '9'
  }

  predicate AllDigits(s: string)
  {
    forall i :: 0 <= i < |s| ==> IsDigit(s[i])
  }

  function DigitChar(d: nat): (c: char)
    requires d < 10
    ensures IsDigit(c) && c as int - '0' as int == d
  {
    (d + '0' as int) as char
  }

  /** Decimal digits of `n`, most significant first, no leading zero. */
  function NatToString(n: nat): (s: string)
    ensures |s| >= 1 && AllDigits(s)
    ensures s[0] == '0' ==> n == 0 && |s| == 1
  {
    if n < 10 then [DigitChar(n)]
    else NatToString(n / 10) + [DigitChar(n % 10)]
  }

  /** `str(n)`: a minus sign before the digits of |n| when n is negative. */
  function IntToString(n: int): string
  {
    if n < 0 then "-" + NatToString(-n) else NatToString(n)
  }

  function ParseDigits(s: string): nat
    requires AllDigits(s)
  {
    if s == [] then 0
    else ParseDigits(s[..|s| - 1]) * 10 + (s[|s| - 1] as int - '0' as int)
  }

  /** `int(s)` restricted to an optional minus sign followed by at least one digit. */
  function ParseInt(s: string): Option<int>
  {
    if |s| >= 2 && s[0] == '-' && AllDigits(s[1..]) then Some(0 - ParseDigits(s[1..]) as int)
    else if |s| >= 1 && AllDigits(s) then Some(ParseDigits(s))
    else None
  }

  lemma {:induction false} ParseNatToString(n: nat)
    ensures ParseDigits(NatToString(n)) == n
  {
    if n >= 10 {
      var s := NatToString(n);
      ParseNatToString(n / 10);
      assert s[..|s| - 1] == NatToString(n / 10);
    }
  }

  /** The text of every integer reads back as that integer. */
  lemma IntRoundTrip(n: int)
    ensures ParseInt(IntToString(n)) == Some(n)
  {
    var s := IntToString(n);
    if n < 0 {
      var digits := NatToString(-n);
      ParseNatToString(-n);
      assert s == ['-'] + digits;
      assert s[1..] == digits;
    } else {
      ParseNatToString(n);
      assert IsDigit(s[0]);
    }
  }

  /** Text `str` prints for some integer: no leading zero and no "-0". */
  predicate Canonical(s: string)
  {
    |s| >= 1 &&
    if s[0] == '-' then |s| >= 2 && s[1] != '0' else s[0] != '0' || |s| == 1
  }

  lemma IntToStringCanonical(n: int)
    ensures Canonical(IntToString(n))
  {
    if n < 0 {
      assert IntToString(n)[1..] == NatToString(-n);
    }
  }

  /** Digits with a nonzero first digit denote a positive number. */
  lemma {:induction false} LeadingDigitPositive(s: string)
    requires |s| >= 1 && AllDigits(s) && s[0] != '0'
    ensures ParseDigits(s) > 0
  {
    if |s| > 1 {
      LeadingDigitPositive(s[..|s| - 1]);
    }
  }

  /** Digits without a leading zero are exactly how `str` prints their value. */
  lemma {:induction false} DigitsRoundTrip(s: string)
    requires |s| >= 1 && AllDigits(s) && (s[0] != '0' || |s| == 1)
    ensures NatToString(ParseDigits(s)) == s
  {
    var init, d := s[..|s| - 1], s[|s| - 1] as int - '0' as int;
    if |s| == 1 {
      assert ParseDigits(s) == d;
    } else {
      DigitsRoundTrip(init);
      LeadingDigitPositive(init);
      var p := ParseDigits(s);
      assert p / 10 == ParseDigits(init) && p % 10 == d;
      assert s == init + [s[|s| - 1]];
    }
  }

  /**
   * Canonical text reads as the integer whose text it is: `str` and this
   * reading are inverse on canonical text.
   */
  lemma CanonicalRoundTrip(s: string, n: int)
    requires Canonical(s) && ParseInt(s) == Some(n)
    ensures IntToString(n) == s
  {
    if s[0] == '-' {
      DigitsRoundTrip(s[1..]);
      assert s == "-" + s[1..];
    } else {
      DigitsRoundTrip(s);
    }
  }
}
