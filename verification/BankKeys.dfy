/** The "chip.bank" keys: decimal numerals joined by a dot, and how they are split again. */
module BankKeys {

  const DIGITS: string := "0123456789"

  /** Python's str(n). */
  function Decimal(n: nat): (s: string)
    ensures |s| > 0
  {
    if n < 10 then [DIGITS[n]] else Decimal(n / 10) + [DIGITS[n % 10]]
  }

  function DigitValue(c: char): nat {
    if '0' <= c <= '9' then (c - '0') as nat else 0
  }

  /** Python's int(s) on a numeral. */
  function ParseDecimal(s: string): nat {
    if s == "" then 0 else 10 * ParseDecimal(s[..|s| - 1]) + DigitValue(s[|s| - 1])
  }

  /** The part before the first dot. */
  function Major(key: string): string {
    if key == "" || key[0] == '.' then "" else [key[0]] + Major(key[1..])
  }

  /** The part after the first dot. */
  function Minor(key: string): string {
    if key == "" then "" else if key[0] == '.' then key[1..] else Minor(key[1..])
  }

  function Key(chip: nat, bank: nat): string {
    Decimal(chip) + "." + Decimal(bank)
  }

  /** The key splits into exactly two numerals. */
  ghost predicate IsKey(key: string) {
    exists chip, bank :: key == Key(chip, bank)
  }

  function ChipOf(key: string): nat {
    ParseDecimal(Major(key))
  }

  function BankOf(key: string): nat {
    ParseDecimal(Minor(key))
  }

  lemma {:induction false} ParseInvertsDecimal(n: nat)
    ensures ParseDecimal(Decimal(n)) == n
    ensures '.' !in Decimal(n)
  {
    DigitRoundTrip(n % 10);
    if n >= 10 {
      ParseInvertsDecimal(n / 10);
      ParseSnoc(Decimal(n / 10), DIGITS[n % 10]);
    } else {
      ParseSnoc("", DIGITS[n]);
      assert "" + [DIGITS[n]] == [DIGITS[n]];
    }
  }

  lemma DigitRoundTrip(d: nat)
    requires d < 10
    ensures DigitValue(DIGITS[d]) == d && DIGITS[d] != '.'
  {
  }

  lemma ParseSnoc(s: string, c: char)
    ensures ParseDecimal(s + [c]) == 10 * ParseDecimal(s) + DigitValue(c)
  {
    assert (s + [c])[..|s|] == s;
  }

  /** Digits only, and no zero in front of others. */
  ghost predicate IsNumeral(s: string) {
    s != "" && (forall i :: 0 <= i < |s| ==> '0' <= s[i] <= '9') && (|s| > 1 ==> s[0] != '0')
  }

  lemma {:induction false} DecimalIsNumeral(n: nat)
    ensures IsNumeral(Decimal(n)) && (Decimal(n)[0] == '0' <==> n == 0)
  {
    if n >= 10 {
      DecimalIsNumeral(n / 10);
      assert Decimal(n)[0] == Decimal(n / 10)[0];
    }
  }

  /** Numbers are written as numerals, one each: reading a numeral and writing the number gives it back. */
  lemma {:induction false} DecimalInvertsParse(s: string)
    requires IsNumeral(s)
    ensures Decimal(ParseDecimal(s)) == s
  {
    var front, c := s[..|s| - 1], s[|s| - 1];
    assert s == front + [c];
    if front == "" {
      OneDigitBack(c);
    } else {
      assert front[0] == s[0] && IsNumeral(front);
      DecimalInvertsParse(front);
      MoreDigitsBack(front, c);
    }
  }

  lemma OneDigitBack(c: char)
    requires '0' <= c <= '9'
    ensures Decimal(ParseDecimal([c])) == [c]
  {
    DigitBack(c);
    ParseSnoc("", c);
    assert "" + [c] == [c] && ParseDecimal("") == 0;
    OneDigit(DigitValue(c));
  }

  lemma MoreDigitsBack(front: string, c: char)
    requires '0' <= c <= '9' && front != "" && front[0] != '0' && Decimal(ParseDecimal(front)) == front
    ensures Decimal(ParseDecimal(front + [c])) == front + [c]
  {
    DigitBack(c);
    ParseSnoc(front, c);
    OneDigit(0);
    MoreDigits(ParseDecimal(front), DigitValue(c));
  }

  lemma DigitBack(c: char)
    requires '0' <= c <= '9'
    ensures DigitValue(c) < 10 && DIGITS[DigitValue(c)] == c
  {
  }

  lemma OneDigit(d: nat)
    requires d < 10
    ensures Decimal(d) == [DIGITS[d]]
  {
  }

  lemma MoreDigits(n: nat, d: nat)
    requires n > 0 && d < 10
    ensures Decimal(10 * n + d) == Decimal(n) + [DIGITS[d]]
  {
    assert (10 * n + d) / 10 == n && (10 * n + d) % 10 == d;
  }

  lemma {:induction false} SplitAtDot(a: string, b: string)
    requires '.' !in a
    ensures Major(a + "." + b) == a && Minor(a + "." + b) == b
  {
    var key := a + "." + b;
    if a != "" {
      SplitAtDot(a[1..], b);
      assert key[1..] == a[1..] + "." + b;
      assert key[0] == a[0];
    }
  }

  /** Splitting a key and reading its numerals gives the chip and bank back, so distinct pairs have
      distinct keys. */
  lemma {:induction false} KeyRoundTrip(chip: nat, bank: nat)
    ensures Major(Key(chip, bank)) == Decimal(chip)
    ensures ChipOf(Key(chip, bank)) == chip && BankOf(Key(chip, bank)) == bank
  {
    ParseInvertsDecimal(chip);
    ParseInvertsDecimal(bank);
    SplitAtDot(Decimal(chip), Decimal(bank));
  }
}
