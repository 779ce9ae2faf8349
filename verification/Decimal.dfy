/** Decimal printing and parsing of integers. */
module Decimal {
  import opened Terms

  predicate IsDigit(c: char)
  {
    '0' <= c <= '9'
  }

  predicate AllDigits(s: string)
  {
    forall i | 0 <= i < |s| :: IsDigit(s[i])
  }

  function DigitChar(d: nat): (c: char)
    requires d < 10
    ensures IsDigit(c) && DigitValue(c) == d
  {
    '0' + d as char
  }

  function DigitValue(c: char): nat
    requires IsDigit(c)
  {
    (c - '0') as nat
  }

  function Natural(n: nat): (s: string)
    ensures |s| > 0 && AllDigits(s)
  {
    if n < 10 then [DigitChar(n)] else Natural(n / 10) + [DigitChar(n % 10)]
  }

  function Itoa(n: int): string
  {
    if n < 0 then "-" + Natural(-n) else Natural(n)
  }

  function NatValue(s: string): nat
    requires AllDigits(s)
  {
    if s == "" then 0 else NatValue(s[..|s| - 1]) * 10 + DigitValue(s[|s| - 1])
  }

  const INT64_LIMIT := 0x8000_0000_0000_0000

  /** An optional sign, at least one digit, and a value that fits in 64 bits. */
  function Atoi(s: string): Option<int>
  {
    var signed := s != "" && (s[0] == '-' || s[0] == '+');
    var digits := if signed then s[1..] else s;
    if digits == "" || !AllDigits(digits) then None
    else
      var magnitude: int := NatValue(digits);
      var v := if signed && s[0] == '-' then -magnitude else magnitude;
      if -INT64_LIMIT <= v < INT64_LIMIT then Some(v) else None
  }

  lemma {:induction false} NaturalValue(n: nat)
    ensures NatValue(Natural(n)) == n
  {
    var s := Natural(n);
    if n < 10 {
      assert s[..0] == "";
    } else {
      NaturalValue(n / 10);
      assert s[..|s| - 1] == Natural(n / 10);
    }
  }

  lemma SignedParse(digits: string)
    requires digits != "" && AllDigits(digits)
    ensures Atoi(digits) == if NatValue(digits) < INT64_LIMIT then Some(NatValue(digits)) else None
    ensures Atoi("+" + digits) == Atoi(digits)
    ensures Atoi("-" + digits) == if NatValue(digits) <= INT64_LIMIT then Some(-(NatValue(digits) as int)) else None
  {
    assert IsDigit(digits[0]);
    assert ("-" + digits)[1..] == digits;
    assert ("+" + digits)[1..] == digits;
  }

  /** Nothing else parses: one sign at most, then digits and only digits. */
  lemma OnlyDigitsParse(s: string)
    ensures Atoi(s).Some? ==>
              exists digits ::
                digits != "" && AllDigits(digits) && (s == digits || s == "+" + digits || s == "-" + digits)
  {
    if Atoi(s).Some? {
      if s[0] == '-' || s[0] == '+' {
        assert s == [s[0]] + s[1..];
        assert s[1..] != "" && AllDigits(s[1..]);
      } else {
        assert AllDigits(s);
      }
    }
  }

  lemma PrintThenParse(n: int)
    ensures Atoi(Itoa(n)) == if -INT64_LIMIT <= n < INT64_LIMIT then Some(n) else None
  {
    var magnitude := if n < 0 then -n else n;
    NaturalValue(magnitude);
    SignedParse(Natural(magnitude));
  }

  // Zero padding.

  function Pow10(k: nat): nat
  {
    if k == 0 then 1 else 10 * Pow10(k - 1)
  }

  function Zeros(k: nat): string
  {
    seq(k, _ => '0')
  }

  /** Decimal text of at least `width` characters, padded with zeros on the left. */
  function ZeroPadded(n: nat, width: nat): string
  {
    if |Natural(n)| >= width then Natural(n) else Zeros(width - |Natural(n)|) + Natural(n)
  }

  lemma {:induction false} NaturalLength(n: nat, k: nat)
    requires k > 0 && n < Pow10(k)
    ensures |Natural(n)| <= k
  {
    if n >= 10 {
      NaturalLength(n / 10, k - 1);
    }
  }

  lemma {:induction false} ZerosAddNothing(k: nat, s: string)
    requires AllDigits(s)
    ensures AllDigits(Zeros(k) + s) && NatValue(Zeros(k) + s) == NatValue(s)
    decreases |s|, k
  {
    var t := Zeros(k) + s;
    if s != "" {
      ZerosAddNothing(k, s[..|s| - 1]);
      assert t[..|t| - 1] == Zeros(k) + s[..|s| - 1];
    } else if k > 0 {
      ZerosAddNothing(k - 1, "");
      assert t[..|t| - 1] == Zeros(k - 1) + "";
    }
  }

  lemma {:induction false} ValueBound(s: string)
    requires AllDigits(s)
    ensures NatValue(s) < Pow10(|s|)
  {
    if s != "" {
      ValueBound(s[..|s| - 1]);
    }
  }

  lemma LastDigit(s: string)
    requires AllDigits(s) && s != ""
    ensures NatValue(s[..|s| - 1]) == NatValue(s) / 10
    ensures s[|s| - 1] == DigitChar(NatValue(s) % 10)
  {
    SameDigit(s[|s| - 1], DigitChar(NatValue(s) % 10));
  }

  lemma SameDigit(c: char, d: char)
    requires IsDigit(c) && IsDigit(d) && DigitValue(c) == DigitValue(d)
    ensures c == d
  {
  }

  /** Digit strings of one length are told apart by their values. */
  lemma {:induction false} SameValueSameDigits(s: string, t: string)
    requires AllDigits(s) && AllDigits(t) && |s| == |t| && NatValue(s) == NatValue(t)
    ensures s == t
  {
    if s != "" {
      var n := |s| - 1;
      LastDigit(s);
      LastDigit(t);
      SameValueSameDigits(s[..n], t[..n]);
      assert s == s[..n] + [s[n]] && t == t[..n] + [t[n]];
    }
  }
}
