/** Decimal numbers as Rust's `Display` prints them and `FromStr` reads them. */
module Decimal {
  import opened Integers
  import opened Wrappers

  predicate IsDigit(c: char) {
    '0' <= c <= '9'
  }

  predicate AllDigits(s: string) {
    forall i | 0 <= i < |s| :: IsDigit(s[i])
  }

  function DigitChar(d: nat): (c: char)
    requires d < 10
    ensures IsDigit(c)
  {
    '0' + d as char
  }

  function Value(s: string): nat
    requires AllDigits(s)
  {
    if s == [] then 0 else 10 * Value(s[..|s| - 1]) + (s[|s| - 1] - '0') as nat
  }

  function PrintNat(n: nat): (s: string)
    ensures s != [] && AllDigits(s)
  {
    if n < 10 then [DigitChar(n)] else PrintNat(n / 10) + [DigitChar(n % 10)]
  }

  function PrintInt(n: int): (s: string)
    ensures s != []
  {
    if n < 0 then ['-'] + PrintNat(-n) else PrintNat(n)
  }

  /** An unsigned parse: an optional '+', at least one digit, and no value above `max`. */
  function ParseUnsigned(s: string, max: nat): (r: Option<nat>)
    ensures r.Some? ==> r.value <= max
  {
    var digits := if s != [] && s[0] == '+' then s[1..] else s;
    if digits != [] && AllDigits(digits) && Value(digits) <= max then Some(Value(digits)) else None
  }

  /** A signed parse into -max-1 .. max, where a '-' is allowed as well. */
  function ParseSigned(s: string, max: nat): (r: Option<int>)
    ensures r.Some? ==> -1 - max as int <= r.value <= max
  {
    if s != [] && s[0] == '-' then
      if s[1..] != [] && AllDigits(s[1..]) && Value(s[1..]) <= max + 1 then Some(-(Value(s[1..]) as int)) else None
    else
      match ParseUnsigned(s, max) case Some(n) => Some(n) case None => None
  }

  function ParseU64(s: string): Option<nat> {
    ParseUnsigned(s, U64_MAX)
  }

  function ParseI64(s: string): Option<int> {
    ParseSigned(s, I64_MAX)
  }

  function ParseI16(s: string): Option<int> {
    ParseSigned(s, I16_MAX)
  }

  lemma {:induction false} ValueOfPrint(n: nat)
    ensures Value(PrintNat(n)) == n
  {
    if n >= 10 {
      ValueOfPrint(n / 10);
      var s := PrintNat(n);
      assert s[..|s| - 1] == PrintNat(n / 10);
    } else {
      assert PrintNat(n)[..0] == [];
    }
  }

  /** Printing and reading back an unsigned number of any width is the identity. */
  lemma UnsignedRoundTrip(n: nat, max: nat)
    requires n <= max
    ensures ParseUnsigned(PrintNat(n), max) == Some(n)
  {
    ValueOfPrint(n);
    assert IsDigit(PrintNat(n)[0]);
  }

  /** Printing and reading back a signed number of any width is the identity. */
  lemma SignedRoundTrip(n: int, max: nat)
    requires -1 - max as int <= n <= max
    ensures ParseSigned(PrintInt(n), max) == Some(n)
  {
    if n < 0 {
      var digits := PrintNat(-n);
      ValueOfPrint(-n);
      assert (['-'] + digits)[1..] == digits;
    } else {
      UnsignedRoundTrip(n, max);
      assert IsDigit(PrintNat(n)[0]);
    }
  }

  /** A printed number holds digits and at most a '-', so no separator of any text format here. */
  lemma PrintHasNoSeparator(n: int, c: char)
    requires !IsDigit(c)
    ensures c == '-' || c !in PrintInt(n)
    ensures n >= 0 ==> PrintInt(n) == PrintNat(n) && c !in PrintInt(n)
  {
    var s := PrintNat(if n < 0 then -n else n);
    assert forall i | 0 <= i < |s| :: IsDigit(s[i]);
  }

  // What the parsers accept, in terms of the texts themselves.

  lemma Widths(s: string)
    ensures ParseU64(s) == ParseUnsigned(s, 18_446_744_073_709_551_615)
    ensures ParseI64(s) == ParseSigned(s, 9_223_372_036_854_775_807)
    ensures ParseI16(s) == ParseSigned(s, 32_767)
  {
  }

  /** Printing is decimal: the last digit is printed last, and nothing precedes a single digit. */
  lemma PrintIsDecimal(n: nat, d: nat)
    requires d < 10
    ensures PrintNat(d) == ["0123456789"[d]]
    ensures n > 0 ==> PrintNat(10 * n + d) == PrintNat(n) + ["0123456789"[d]]
  {
    assert "0123456789"[d] == DigitChar(d);
    assert (10 * n + d) / 10 == n && (10 * n + d) % 10 == d;
  }

  function Zeros(k: nat): string {
    seq(k, _ => '0')
  }

  predicate PaddedWith(s: string, k: nat, n: nat) {
    s == Zeros(k) + PrintNat(n)
  }

  /** Any number of zeros, and the number as it is printed. */
  ghost predicate Padded(s: string, n: nat) {
    exists k: nat :: PaddedWith(s, k, n)
  }

  lemma {:induction false} ValueOfZeros(k: nat, n: nat)
    ensures AllDigits(Zeros(k) + PrintNat(n)) && Value(Zeros(k) + PrintNat(n)) == n
    decreases n
  {
    var s := Zeros(k) + PrintNat(n);
    var init := s[..|s| - 1];
    if n >= 10 {
      ValueOfZeros(k, n / 10);
      assert init == Zeros(k) + PrintNat(n / 10);
    } else {
      assert init == Zeros(k);
      ZerosAreZero(k);
    }
  }

  lemma {:induction false} ZerosAreZero(k: nat)
    ensures AllDigits(Zeros(k)) && Value(Zeros(k)) == 0
  {
    if k > 0 {
      ZerosAreZero(k - 1);
      assert Zeros(k)[..k - 1] == Zeros(k - 1);
    }
  }

  lemma OneMoreDigit(init: string, k: nat, v: nat, d: nat) returns (k': nat)
    requires init == Zeros(k) + PrintNat(v) && d < 10
    ensures init + [DigitChar(d)] == Zeros(k') + PrintNat(10 * v + d)
  {
    PrintIsDecimal(v, d);
    if v == 0 {
      k' := k + 1;
      assert PrintNat(0) == "0" && Zeros(k) + "0" == Zeros(k + 1);
    } else {
      k' := k;
    }
  }

  lemma {:induction false} DigitsSpell(s: string) returns (k: nat)
    requires s != "" && AllDigits(s)
    ensures s == Zeros(k) + PrintNat(Value(s))
  {
    var init, d := s[..|s| - 1], (s[|s| - 1] - '0') as nat;
    assert s == init + [DigitChar(d)];
    if init == "" {
      k := 0;
      assert Value(s) == d;
    } else {
      k := DigitsSpell(init);
      k := OneMoreDigit(init, k, Value(init), d);
    }
  }

  lemma DigitsAreExact(s: string, n: nat)
    ensures s != "" && AllDigits(s) && Value(s) == n <==> Padded(s, n)
    ensures Padded(s, n) ==> s != "" && IsDigit(s[0])
  {
    if s != "" && AllDigits(s) {
      var k := DigitsSpell(s);
      assert PaddedWith(s, k, Value(s));
    }
    if k: nat :| PaddedWith(s, k, n) {
      ValueOfZeros(k, n);
    }
  }

  /** Exactly the numbers up to `max` are accepted, with an optional '+'; everything else is an error. */
  lemma UnsignedIsExact(s: string, max: nat, n: nat)
    ensures ParseUnsigned(s, max) == Some(n) <==>
              n <= max && (Padded(s, n) || (s != "" && s[0] == '+' && Padded(s[1..], n)))
  {
    DigitsAreExact(s, n);
    if s != "" {
      DigitsAreExact(s[1..], n);
    }
  }

  lemma NegativeIsExact(s: string, max: nat, n: int)
    requires s != "" && s[0] == '-'
    ensures ParseSigned(s, max) == Some(n) <==> 0 <= -n <= max + 1 && Padded(s[1..], -n)
  {
    var digits := s[1..];
    var valid := digits != "" && AllDigits(digits);
    assert ParseSigned(s, max) == if valid && Value(digits) <= max + 1 then Some(-(Value(digits) as int)) else None;
    if n <= 0 {
      DigitsAreExact(digits, -n);
    }
  }

  /** The same for signed numbers, which may have a '-'. */
  lemma SignedIsExact(s: string, max: nat, n: int)
    ensures ParseSigned(s, max) == Some(n) <==>
              if s != "" && s[0] == '-' then 0 <= -n <= max + 1 && Padded(s[1..], -n)
              else 0 <= n <= max && (Padded(s, n) || (s != "" && s[0] == '+' && Padded(s[1..], n)))
  {
    if s != "" && s[0] == '-' {
      NegativeIsExact(s, max, n);
    } else if n >= 0 {
      UnsignedIsExact(s, max, n);
    }
  }
}
