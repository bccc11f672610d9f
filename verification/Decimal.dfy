/**
 Decimal text of integers, as Rust prints and parses it, and the 64-bit wrap-around of
 release-mode arithmetic. Proposal ids and counter values both rest on these laws.
 */
module Decimal {
  import opened Wrappers

  const TWO_TO_THE_63: int := 0x8000_0000_0000_0000
  const TWO_TO_THE_64: int := 0x1_0000_0000_0000_0000

  predicate IsDigit(c: char) {
    '0' <= c <= '9'
  }

  predicate AllDigits(s: string) {
    forall i :: 0 <= i < |s| ==> IsDigit(s[i])
  }

  function Digit(d: nat): char
    requires d < 10
  {
    '0' + d as char
  }

  function DigitValue(c: char): nat
    requires IsDigit(c)
  {
    (c - '0') as nat
  }

  /** The text of a natural number: digits only, never empty. */
  function PrintNat(n: nat): (s: string)
    ensures s != "" && AllDigits(s)
  {
    if n < 10 then [Digit(n)] else PrintNat(n / 10) + [Digit(n % 10)]
  }

  function DigitsValue(s: string): nat
    requires AllDigits(s)
  {
    if s == "" then 0 else DigitsValue(s[..|s| - 1]) * 10 + DigitValue(s[|s| - 1])
  }

  lemma {:induction false} PrintNatRoundTrip(n: nat)
    ensures DigitsValue(PrintNat(n)) == n
  {
    var s := PrintNat(n);
    if n < 10 {
      assert s[..|s| - 1] == "";
    } else {
      PrintNatRoundTrip(n / 10);
      assert s[..|s| - 1] == PrintNat(n / 10);
    }
  }

  /** The text of a signed integer, as `i64::to_string` gives it. */
  function PrintInt(n: int): string {
    if n < 0 then "-" + PrintNat(-n) else PrintNat(n)
  }

  predicate InI64(n: int) {
    -TWO_TO_THE_63 <= n < TWO_TO_THE_63
  }

  /** `str::parse::<i64>`: an optional sign, at least one digit, nothing else, in range. */
  function ParseI64(s: string): (r: Option<int>)
    ensures r.Some? ==> InI64(r.value)
  {
    var negative := s != "" && s[0] == '-';
    var digits := if s != "" && (s[0] == '-' || s[0] == '+') then s[1..] else s;
    if digits == "" || !AllDigits(digits) then
      None
    else
      var magnitude: int := DigitsValue(digits);
      var n := if negative then -magnitude else magnitude;
      if InI64(n) then Some(n) else None
  }

  predicate IsZeros(s: string) {
    forall i :: 0 <= i < |s| ==> s[i] == '0'
  }

  /** No zero in front of other digits. */
  lemma {:induction false} PrintNatCanonical(n: nat)
    ensures PrintNat(n)[0] == '0' <==> n == 0
    ensures n == 0 ==> PrintNat(n) == "0"
  {
    if n >= 10 {
      PrintNatCanonical(n / 10);
    }
  }

  lemma {:induction false} ZerosValue(zeros: string, digits: string)
    requires IsZeros(zeros) && AllDigits(digits)
    ensures AllDigits(zeros + digits) && DigitsValue(zeros + digits) == DigitsValue(digits)
    decreases |zeros| + |digits|
  {
    var s := zeros + digits;
    if digits != "" {
      assert s[..|s| - 1] == zeros + digits[..|digits| - 1];
      ZerosValue(zeros, digits[..|digits| - 1]);
    } else if zeros != "" {
      assert s == zeros && s[..|s| - 1] == zeros[..|zeros| - 1] + "";
      ZerosValue(zeros[..|zeros| - 1], "");
    }
  }

  /** Digits are the text of their value, with zeros in front. */
  lemma {:induction false} DigitsArePadded(s: string) returns (zeros: string)
    requires s != "" && AllDigits(s)
    ensures IsZeros(zeros) && s == zeros + PrintNat(DigitsValue(s))
  {
    var front, last := s[..|s| - 1], DigitValue(s[|s| - 1]);
    assert s == front + [Digit(last)];
    if front == "" {
      zeros := "";
    } else {
      zeros := DigitsArePadded(front);
      if DigitsValue(front) == 0 {
        PrintNatCanonical(0);
        zeros := front;
      } else {
        assert s == zeros + (PrintNat(DigitsValue(front)) + [Digit(last)]);
      }
    }
  }

  function InRange(n: int): Option<int> {
    if InI64(n) then Some(n) else None
  }

  predicate IsSign(s: string) {
    s == "-" || s == "+" || s == ""
  }

  lemma ParseSigned(sign: string, digits: string)
    requires IsSign(sign) && digits != "" && AllDigits(digits)
    ensures ParseI64(sign + digits) ==
            InRange(if sign == "-" then -(DigitsValue(digits) as int) else DigitsValue(digits))
  {
    var s := sign + digits;
    assert IsDigit(digits[0]);
    if sign == "" {
      assert s == digits;
    } else {
      assert s[0] == sign[0] && s[1..] == digits;
    }
  }

  lemma ParsedIsSigned(s: string) returns (sign: string, digits: string)
    requires ParseI64(s).Some?
    ensures s == sign + digits && digits != "" && AllDigits(digits)
    ensures IsSign(sign)
  {
    if s[0] == '-' || s[0] == '+' {
      sign, digits := s[..1], s[1..];
      assert sign == [s[0]];
    } else {
      sign, digits := "", s;
    }
  }

  function Magnitude(n: int): nat {
    if n < 0 then -n else n
  }

  /** A sign or none that goes with the number, zeros or none, and the digits of its magnitude. */
  ghost predicate Spells(s: string, n: int, sign: string, zeros: string) {
    && IsSign(sign)
    && (n < 0 ==> sign == "-") && (n > 0 ==> sign != "-")
    && IsZeros(zeros)
    && s == sign + (zeros + PrintNat(Magnitude(n)))
  }

  lemma SpelledParses(s: string, n: int, sign: string, zeros: string)
    requires Spells(s, n, sign, zeros) && InI64(n)
    ensures ParseI64(s) == Some(n)
  {
    var digits := zeros + PrintNat(Magnitude(n));
    PrintNatRoundTrip(Magnitude(n));
    ZerosValue(zeros, PrintNat(Magnitude(n)));
    ParseSigned(sign, digits);
  }

  lemma ParsedIsSpelled(s: string) returns (sign: string, zeros: string)
    requires ParseI64(s).Some?
    ensures Spells(s, ParseI64(s).value, sign, zeros)
  {
    var digits;
    sign, digits := ParsedIsSigned(s);
    ParseSigned(sign, digits);
    zeros := DigitsArePadded(digits);
  }

  /** Exactly the texts that parse: a sign, zeros and the digits of a number within 64 bits. */
  lemma ParseI64Iff(s: string, n: int)
    ensures ParseI64(s) == Some(n) <==> InI64(n) && exists sign, zeros :: Spells(s, n, sign, zeros)
  {
    if ParseI64(s) == Some(n) {
      var sign, zeros := ParsedIsSpelled(s);
    }
    if InI64(n) && exists sign, zeros :: Spells(s, n, sign, zeros) {
      var sign, zeros :| Spells(s, n, sign, zeros);
      SpelledParses(s, n, sign, zeros);
    }
  }

  /**
   The text of an integer is its canonical one: a minus sign exactly below zero, then digits
   with no zero in front unless the number is zero. Each integer has one such text.
   */
  lemma PrintIntCanonical(n: int)
    ensures Canonical(PrintInt(n))
    ensures PrintInt(n)[0] == '-' <==> n < 0
    ensures forall s :: Canonical(s) && ParseI64(s) == Some(n) ==> s == PrintInt(n)
  {
    PrintNatCanonical(Magnitude(n));
    if n < 0 {
      assert PrintInt(n)[1..] == PrintNat(-n);
    }
    forall s | Canonical(s) && ParseI64(s) == Some(n) ensures s == PrintInt(n) {
      CanonicalIsPrinted(s);
    }
  }

  lemma CanonicalIsPrinted(s: string)
    requires Canonical(s) && ParseI64(s).Some?
    ensures s == PrintInt(ParseI64(s).value)
  {
    var sign, zeros := ParsedIsSpelled(s);
    var n := ParseI64(s).value;
    PrintNatCanonical(Magnitude(n));
    if zeros != "" {
      assert false;  // there is another digit after them
    }
    assert zeros + PrintNat(Magnitude(n)) == PrintNat(Magnitude(n));
    assert sign != "" ==> s[0] == sign[0];
  }

  /** An optional minus sign and digits, the first of which is zero only if it is the only one and unsigned. */
  predicate Canonical(s: string) {
    && s != ""
    && var digits := if s[0] == '-' then s[1..] else s;
       digits != "" && AllDigits(digits) && (digits[0] == '0' ==> s == "0")
  }

  /** Printing then parsing gives the number back, for every 64-bit integer and no other. */
  lemma PrintParseRoundTrip(n: int)
    ensures ParseI64(PrintInt(n)) == if InI64(n) then Some(n) else None
  {
    PrintNatRoundTrip(Magnitude(n));
    if n < 0 {
      assert PrintInt(n)[1..] == PrintNat(-n);
    } else {
      assert IsDigit(PrintInt(n)[0]);
    }
  }

  /** The value a 64-bit two's complement register keeps of an unbounded sum. */
  function WrapI64(n: int): (r: int)
    ensures InI64(r) && (n - r) % TWO_TO_THE_64 == 0
  {
    (n + TWO_TO_THE_63) % TWO_TO_THE_64 - TWO_TO_THE_63
  }

  /** Wrapping after every addition loses no more than wrapping once at the end. */
  lemma WrapI64Sum(a: int, b: int)
    ensures WrapI64(WrapI64(a) + b) == WrapI64(a + b)
  {
    var q := (a + TWO_TO_THE_63) / TWO_TO_THE_64;
    assert WrapI64(a) == a - q * TWO_TO_THE_64;
    WrapI64Period(a + b, -q);
  }

  lemma WrapI64InRange(n: int)
    requires InI64(n)
    ensures WrapI64(n) == n
  {
  }

  lemma WrapI64Period(n: int, k: int)
    ensures WrapI64(n + k * TWO_TO_THE_64) == WrapI64(n)
  {
    var x := n + TWO_TO_THE_63;
    assert x + k * TWO_TO_THE_64 == (x / TWO_TO_THE_64 + k) * TWO_TO_THE_64 + x % TWO_TO_THE_64;
  }

  /** The value a 64-bit unsigned register keeps of an unbounded sum. */
  function WrapU64(n: nat): nat {
    n % TWO_TO_THE_64
  }

  /** `format!("{}_{}", node, counter)`: the id of a proposal. */
  function ProposalId(node: nat, counter: nat): string {
    PrintNat(node) + "_" + PrintNat(counter)
  }

  lemma PrintNatInjective(a: nat, b: nat)
    requires PrintNat(a) == PrintNat(b)
    ensures a == b
  {
    PrintNatRoundTrip(a);
    PrintNatRoundTrip(b);
  }

  /** The separator is no digit, so an id determines both numbers it was made from. */
  lemma ProposalIdInjective(node1: nat, counter1: nat, node2: nat, counter2: nat)
    requires ProposalId(node1, counter1) == ProposalId(node2, counter2)
    ensures node1 == node2 && counter1 == counter2
  {
    var a, b := PrintNat(node1), PrintNat(node2);
    var id := ProposalId(node1, counter1);
    assert id[|a|] == '_' && id[|b|] == '_';
    assert forall i :: 0 <= i < |a| ==> id[i] == a[i] && IsDigit(id[i]);
    assert forall i :: 0 <= i < |b| ==> id[i] == b[i] && IsDigit(id[i]);
    assert |a| == |b|;
    assert a == id[..|a|] && b == id[..|b|];
    assert PrintNat(counter1) == id[|a| + 1..] && PrintNat(counter2) == id[|b| + 1..];
    PrintNatInjective(node1, node2);
    PrintNatInjective(counter1, counter2);
  }
}
