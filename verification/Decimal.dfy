// Numbers as text: what names a slice's elements, and what counts and ordinals
// travel as.

module Decimal {
  import opened Basics

  const MaxInt64: nat := 0x7FFF_FFFF_FFFF_FFFF
  const MaxUint64: nat := 0xFFFF_FFFF_FFFF_FFFF

  function Digit(d: nat): char
    requires d < 10
  {
    ('0' as int + d) as char
  }

  predicate IsDigit(c: char) {
    '0' <= c <= '9'
  }

  function Itoa(n: nat): (s: string)
    ensures s != "" && forall i :: 0 <= i < |s| ==> IsDigit(s[i])
  {
    if n < 10 then [Digit(n)] else Itoa(n / 10) + [Digit(n % 10)]
  }

  predicate AllDigits(s: string) {
    s != "" && forall i :: 0 <= i < |s| ==> IsDigit(s[i])
  }

  function Number(s: string): nat
    requires forall i :: 0 <= i < |s| ==> IsDigit(s[i])
  {
    if s == "" then 0
    else
      assert IsDigit(s[|s| - 1]);
      10 * Number(s[..|s| - 1]) + (s[|s| - 1] as int - '0' as int)
  }

  /** Reads an unsigned number: digits alone, within 64 bits. */
  function ParseUint(s: string): Option<nat> {
    if AllDigits(s) && Number(s) <= MaxUint64 then Some(Number(s)) else None
  }

  /** Reads a signed number: a sign is allowed, and so are leading zeros. */
  function Atoi(s: string): Option<int> {
    if s == "" then None
    else
      var digits := if s[0] == '-' || s[0] == '+' then s[1..] else s;
      if !AllDigits(digits) then None
      else
        var n: int := Number(digits);
        if s[0] == '-' then (if n <= MaxInt64 + 1 then Some(-n) else None)
        else if n <= MaxInt64 then Some(n) else None
  }

  lemma {:induction false} NumberItoa(n: nat)
    ensures Number(Itoa(n)) == n
  {
    var s := Itoa(n);
    if n >= 10 {
      NumberItoa(n / 10);
      assert s[..|s| - 1] == Itoa(n / 10);
    } else {
      assert s[..0] == "";
    }
  }

  // No leading zero, so one text for each number.
  lemma {:induction false} ItoaShortest(n: nat)
    ensures Itoa(n)[0] == '0' ==> n == 0 && Itoa(n) == "0"
  {
    if n >= 10 { ItoaShortest(n / 10); }
  }

  // Text read as a number is digits within range, with either sign or none.
  lemma AtoiTaken(s: string)
    ensures Atoi(s).Some? && Atoi(s).value > 0 <==>
              exists digits :: (s == digits || s == "+" + digits) && AllDigits(digits) && 0 < Number(digits) <= MaxInt64
    ensures Atoi(s).Some? && Atoi(s).value < 0 <==>
              exists digits :: s == "-" + digits && AllDigits(digits) && 0 < Number(digits) <= MaxInt64 + 1
    ensures Atoi(s) == Some(0) <==>
              exists digits :: (s == digits || s == "+" + digits || s == "-" + digits) && AllDigits(digits) && Number(digits) == 0
  {
    if s != "" {
      var digits := if s[0] == '-' || s[0] == '+' then s[1..] else s;
      assert s[0] == '-' ==> s == "-" + digits;
      assert s[0] == '+' ==> s == "+" + digits;
      assert forall ds: string :: s == "+" + ds || s == "-" + ds ==> ds == s[1..];
    }
  }

  // What is printed reads back, if it is within range.
  lemma ItoaReadsBack(n: nat)
    ensures ParseUint(Itoa(n)) == if n <= MaxUint64 then Some(n) else None
    ensures Atoi(Itoa(n)) == if n <= MaxInt64 then Some(n) else None
  {
    NumberItoa(n);
  }

  lemma ItoaInjective(m: nat, n: nat)
    requires Itoa(m) == Itoa(n)
    ensures m == n
  {
    NumberItoa(m);
    NumberItoa(n);
  }
}
