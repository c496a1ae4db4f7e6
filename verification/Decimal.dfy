/** The decimal text form of 256-bit integers: boost::lexical_cast between u256 and string. */
module Decimal {
  import opened Base

  const DIGIT_ZERO: byte := 48

  function Print(n: nat): (r: bytes)
    ensures |r| > 0
  {
    if n < 10 then [DIGIT_ZERO + n] else Print(n / 10) + [DIGIT_ZERO + n % 10]
  }

  predicate IsDigit(c: byte) {
    DIGIT_ZERO <= c <= DIGIT_ZERO + 9
  }

  /** Digits only, at least one, and no leading zero unless the text is "0". */
  predicate IsDecimal(b: bytes) {
    |b| > 0 && (forall i | 0 <= i < |b| :: IsDigit(b[i])) && (|b| == 1 || b[0] != DIGIT_ZERO)
  }

  function Value(b: bytes): nat
    requires forall i | 0 <= i < |b| :: IsDigit(b[i])
  {
    if b == [] then 0 else
    var digit: int := b[|b| - 1];
    assert IsDigit(digit);
    10 * Value(b[..|b| - 1]) + (digit - DIGIT_ZERO)
  }

  /** Parsing wraps modulo 2^256, as the unchecked fixed-width integer does. */
  function Parse(b: bytes): Option<u256> {
    if IsDecimal(b) then Some(Value(b) % U256_LIMIT) else None
  }

  lemma {:induction false} PrintIsDecimal(n: nat)
    ensures IsDecimal(Print(n))
    ensures Value(Print(n)) == n
    ensures n > 0 ==> Print(n)[0] != DIGIT_ZERO
  {
    if n >= 10 {
      PrintIsDecimal(n / 10);
      assert Print(n)[..|Print(n)| - 1] == Print(n / 10);
    } else {
      assert Print(n)[..0] == [];
    }
  }

  /** Every canonical text is the print of its value, so printing is a bijection onto them. */
  lemma {:induction false} PrintOfValue(b: bytes)
    requires IsDecimal(b)
    ensures Print(Value(b)) == b
    ensures b[0] != DIGIT_ZERO ==> Value(b) > 0
  {
    var init := b[..|b| - 1];
    if |b| == 1 {
      assert init == [];
    } else {
      assert init[0] == b[0];
      PrintOfValue(init);
      assert init + [b[|b| - 1]] == b;
    }
  }

  /** A 256-bit integer survives being stored as text. */
  lemma ParseOfPrint(n: u256)
    ensures Parse(Print(n)) == Some(n)
  {
    hide Print, Value;
    PrintIsDecimal(n);
  }

  /** Only the printed text and texts of values too large to store parse to n. */
  lemma PrintOfParse(b: bytes, n: u256)
    requires Parse(b) == Some(n)
    ensures b == Print(n) <==> Value(b) < U256_LIMIT
  {
    hide Print, Value;
    PrintOfValue(b);
    PrintIsDecimal(n);
  }

  lemma PrintInjective(m: nat, n: nat)
    requires Print(m) == Print(n)
    ensures m == n
  {
    PrintIsDecimal(m);
    PrintIsDecimal(n);
  }

  function Pow10(k: nat): nat {
    if k == 0 then 1 else 10 * Pow10(k - 1)
  }

  lemma Pow10Plus13(k: nat)
    ensures Pow10(k + 13) == 10_000_000_000_000 * Pow10(k)
  {
    assert Pow10(k + 2) == 100 * Pow10(k);
    assert Pow10(k + 4) == 100 * Pow10(k + 2);
    assert Pow10(k + 6) == 100 * Pow10(k + 4);
    assert Pow10(k + 8) == 100 * Pow10(k + 6);
    assert Pow10(k + 10) == 100 * Pow10(k + 8);
    assert Pow10(k + 12) == 100 * Pow10(k + 10);
  }

  lemma {:induction false} PrintLength(n: nat, k: nat)
    requires k > 0
    ensures |Print(n)| <= k <==> n < Pow10(k)
  {
    if k == 1 {
      assert Pow10(1) == 10;
    } else if n < 10 {
      PrintLength(n, k - 1);
    } else {
      PrintLength(n / 10, k - 1);
    }
  }

  lemma Pow10Of39()
    ensures Pow10(39) == 1_000000_000000_000000_000000_000000_000000_000
  {
    assert Pow10(0) == 1;
    hide Pow10;
    Pow10Plus13(0);
    Pow10Plus13(13);
    Pow10Plus13(26);
  }

  lemma U256Between()
    ensures Pow10(77) < U256_LIMIT <= Pow10(78)
  {
    assert Pow10(78) == 10 * Pow10(77);
    hide Pow10;
    Pow10Of39();
    Pow10Plus13(39);
    Pow10Plus13(52);
    Pow10Plus13(65);
  }

  /** 78 digits always suffice for a 256-bit integer, and the largest one needs them. */
  lemma U256Length(n: u256)
    ensures |Print(n)| <= 78
    ensures |Print(U256_LIMIT - 1)| == 78
  {
    hide Pow10, Print;
    U256Between();
    PrintLength(n, 78);
    PrintLength(U256_LIMIT - 1, 78);
    PrintLength(U256_LIMIT - 1, 77);
  }

  /** A number beyond 256 bits wraps. */
  lemma ParseOfAnyPrint(n: nat)
    ensures Parse(Print(n)) == Some(n % U256_LIMIT)
  {
    PrintIsDecimal(n);
  }

  /** The digits are those of ASCII. */
  lemma PrintExample()
    ensures Print(0) == [48]
    ensures Print(9876543210) == [57, 56, 55, 54, 53, 52, 51, 50, 49, 48]
  {
    assert Print(98765) == [57, 56, 55, 54, 53];
    assert Print(98765432) == [57, 56, 55, 54, 53, 52, 51, 50];
  }

  /** What a getter over a stored text returns: zero when nothing is stored, None when the cast throws. */
  function ParseStored(b: bytes): Option<u256> {
    if b == [] then Some(0) else Parse(b)
  }
}
