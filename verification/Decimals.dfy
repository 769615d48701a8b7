/** Decimal notation as identifiers use it: printing, parsing, and that neither loses anything. */
module Decimals {
  import opened Outcomes

  const DIGITS := "0123456789"

  function Decimal(n: int): string
    decreases if n < 0 then 1 - n else n
  {
    if n < 0 then "-" + Decimal(-n)
    else if n < 10 then [DIGITS[n]]
    else Decimal(n / 10) + [DIGITS[n % 10]]
  }

  predicate IsDigit(c: char) {
    '0' <= c <= '9'
  }

  predicate AllDigits(s: string) {
    forall i :: 0 <= i < |s| ==> IsDigit(s[i])
  }

  function Value(s: string): nat
    requires AllDigits(s)
  {
    if s == "" then 0 else 10 * Value(s[..|s| - 1]) + (s[|s| - 1] - '0') as nat
  }

  /** strconv.Atoi on unbounded integers: an optional sign, then at least one digit. */
  function Atoi(s: string): Option<int> {
    var digits := if s != "" && (s[0] == '+' || s[0] == '-') then s[1..] else s;
    if digits == "" || !AllDigits(digits) then None
    else Some(if s[0] == '-' then 0 - Value(digits) else Value(digits) as int)
  }

  lemma {:induction false} DecimalIsDigits(n: nat)
    ensures Decimal(n) != "" && AllDigits(Decimal(n)) && Value(Decimal(n)) == n
  {
    if n >= 10 {
      DecimalIsDigits(n / 10);
      assert Decimal(n)[..|Decimal(n)| - 1] == Decimal(n / 10);
    }
    DigitValue(n % 10);
  }

  lemma DigitValue(d: nat)
    requires d < 10
    ensures IsDigit(DIGITS[d]) && (DIGITS[d] - '0') as nat == d
  {
    assert DIGITS[0] == '0' && DIGITS[1] == '1' && DIGITS[2] == '2' && DIGITS[3] == '3' && DIGITS[4] == '4';
    assert DIGITS[5] == '5' && DIGITS[6] == '6' && DIGITS[7] == '7' && DIGITS[8] == '8' && DIGITS[9] == '9';
  }

  /** No number is printed with a zero in front, and a negative one is printed with its sign. */
  lemma {:induction false} DecimalHasNoLeadingZero(n: int)
    ensures n > 0 ==> Decimal(n)[0] in "123456789"
    ensures n == 0 ==> Decimal(n) == "0"
    ensures n < 0 ==> Decimal(n) == "-" + Decimal(-n)
    decreases if n < 0 then 1 - n else n
  {
    if n >= 10 {
      DecimalIsDigits(n / 10);
      DecimalHasNoLeadingZero(n / 10);
      assert Decimal(n)[0] == Decimal(n / 10)[0];
    }
  }

  lemma AtoiOfDecimal(n: nat)
    ensures Atoi(Decimal(n)) == Some(n)
  {
    DecimalIsDigits(n);
  }

  /** n zeros. */
  function Zeros(n: nat): string {
    seq(n, _ => '0')
  }

  /** A numeral: an optional sign, any number of leading zeros, then the number as it is printed. */
  ghost predicate Spells(s: string, n: int) {
    exists zeros: nat, sign <- ["", "+", "-"] ::
      && s == sign + Zeros(zeros) + Decimal(if n < 0 then -n else n)
      && (if sign == "-" then n <= 0 else n >= 0)
  }

  lemma PrintsOneMore(v: nat, c: char)
    requires v > 0 && IsDigit(c)
    ensures Decimal(10 * v + (c - '0') as nat) == Decimal(v) + [c]
  {
    DigitPrints(c);
    var d := (c - '0') as nat;
    hide IsDigit;
    LastDigit(v, d);
  }

  lemma LastDigit(v: nat, d: nat)
    requires v > 0 && d < 10
    ensures 10 * v + d >= 10 && (10 * v + d) / 10 == v && (10 * v + d) % 10 == d
  {
  }

  lemma PrintsDigit(c: char)
    requires IsDigit(c)
    ensures Decimal((c - '0') as nat) == [c] && Decimal(0) == "0"
  {
    DigitPrints(c);
  }

  /** Leading zeros, then the decimal form of the value. */
  lemma {:induction false} DigitsSpell(s: string) returns (zeros: nat)
    requires s != "" && AllDigits(s)
    ensures s == Zeros(zeros) + Decimal(Value(s))
  {
    hide Decimal, IsDigit;
    var (front, last) := (s[..|s| - 1], s[|s| - 1]);
    assert s == front + [last] && IsDigit(last);
    PrintsDigit(last);
    if front == "" {
      zeros := 0;
      assert s == [last] && Zeros(0) == "";
    } else {
      zeros := DigitsSpell(front);
      if Value(front) == 0 {
        assert front == Zeros(zeros + 1);
        zeros := zeros + 1;
      } else {
        PrintsOneMore(Value(front), last);
        assert Zeros(zeros) + Decimal(Value(front)) + [last] == Zeros(zeros) + (Decimal(Value(front)) + [last]);
      }
    }
  }

  lemma DigitPrints(c: char)
    requires IsDigit(c)
    ensures (c - '0') as nat < 10 && DIGITS[(c - '0') as nat] == c
  {
  }

  lemma {:induction false} ZerosValue(zeros: nat, s: string)
    requires AllDigits(s)
    ensures AllDigits(Zeros(zeros) + s) && Value(Zeros(zeros) + s) == Value(s)
    decreases |s|, zeros
  {
    var t := Zeros(zeros) + s;
    if s != "" {
      assert t[..|t| - 1] == Zeros(zeros) + s[..|s| - 1];
      ZerosValue(zeros, s[..|s| - 1]);
    } else if zeros > 0 {
      assert t[..|t| - 1] == Zeros(zeros - 1) + s;
      ZerosValue(zeros - 1, s);
    }
  }

  /** Atoi reads exactly the numerals, each as the number it spells. */
  lemma AtoiExactly(s: string, n: int)
    ensures Atoi(s) == Some(n) <==> Spells(s, n)
  {
    if Atoi(s) == Some(n) {
      NumeralSpells(s, n);
    }
    if Spells(s, n) {
      SpelledReads(s, n);
    }
  }

  lemma NumeralSplits(s: string) returns (sign: string, digits: string)
    requires Atoi(s).Some?
    ensures s == sign + digits && sign in ["", "+", "-"] && digits != "" && AllDigits(digits)
  {
    hide Value, IsDigit;
    if s[0] == '+' || s[0] == '-' {
      sign, digits := [s[0]], s[1..];
    } else {
      sign, digits := "", s;
    }
  }

  lemma NumeralSpells(s: string, n: int)
    requires Atoi(s) == Some(n)
    ensures Spells(s, n)
  {
    hide Decimal, Value, Atoi, AllDigits;
    var sign, digits := NumeralSplits(s);
    SignedReads(sign, digits);
    var zeros := DigitsSpell(digits);
    assert sign + (Zeros(zeros) + Decimal(Value(digits))) == sign + Zeros(zeros) + Decimal(Value(digits));
  }

  lemma SpelledReads(s: string, n: int)
    requires Spells(s, n)
    ensures Atoi(s) == Some(n)
  {
    hide Decimal, Value, Atoi, IsDigit;
    var m: nat := if n < 0 then -n else n;
    var zeros: nat, sign :| sign in ["", "+", "-"]
      && s == sign + Zeros(zeros) + Decimal(m) && (if sign == "-" then n <= 0 else n >= 0);
    var digits := Zeros(zeros) + Decimal(m);
    DecimalIsDigits(m);
    ZerosValue(zeros, Decimal(m));
    assert s == sign + digits && digits != "";
    SignedReads(sign, digits);
  }

  lemma SignedReads(sign: string, digits: string)
    requires sign in ["", "+", "-"] && digits != "" && AllDigits(digits)
    ensures Atoi(sign + digits) == Some(if sign == "-" then 0 - Value(digits) else Value(digits) as int)
  {
    hide Value;
    assert IsDigit(digits[0]);
    if sign == "" {
      assert sign + digits == digits;
    } else {
      assert (sign + digits)[0] == sign[0] && (sign + digits)[1..] == digits;
    }
  }

  /** The id both job registries give the n-th job of a kind. */
  function JobIdOf(kind: string, n: nat): string {
    kind + "-" + Decimal(n)
  }

  /** ordinalOf: the number an id of this kind carries; None for an id of another kind. */
  function OrdinalOf(id: string, kind: string): Option<int> {
    if !(kind + "-" <= id) then None else
      var ordinal := Atoi(id[|kind| + 1..]);
      if ordinal.None? || ordinal.value <= 0 then None else ordinal
  }

  /** The number of an id: exactly what a positive numeral behind kind and dash spells. */
  lemma OrdinalExactly(id: string, kind: string, n: int)
    ensures OrdinalOf(id, kind) == Some(n) <==> n > 0 && exists suffix :: id == kind + "-" + suffix && Spells(suffix, n)
  {
    hide Spells, Atoi;
    if kind + "-" <= id {
      var suffix := id[|kind| + 1..];
      assert id == kind + "-" + suffix;
      AtoiExactly(suffix, n);
    }
    if n > 0 && exists suffix :: id == kind + "-" + suffix && Spells(suffix, n) {
      var suffix :| id == kind + "-" + suffix && Spells(suffix, n);
      assert id[|kind| + 1..] == suffix;
      AtoiExactly(suffix, n);
    }
  }

  lemma DashAt(kind: string, n: nat, i: nat)
    requires i < |JobIdOf(kind, n)| && i >= |kind|
    ensures JobIdOf(kind, n)[i] == '-' <==> i == |kind|
  {
    DecimalIsDigits(n);
    var id := JobIdOf(kind, n);
    if i > |kind| {
      assert id[i] == Decimal(n)[i - |kind| - 1];
      assert IsDigit(Decimal(n)[i - |kind| - 1]);
    }
  }

  /** The number can be read back from an id for its own kind and for no other, dashes or not. */
  lemma OrdinalOfJobId(kind: string, n: nat, asked: string)
    requires n > 0
    ensures OrdinalOf(JobIdOf(kind, n), asked) == (if asked == kind then Some(n) else None)
  {
    var id := JobIdOf(kind, n);
    if asked + "-" <= id {
      assert (asked + "-")[|asked|] == id[|asked|];
      if |asked| >= |kind| {
        DashAt(kind, n, |asked|);
        assert kind + "-" == id[..|kind| + 1] == asked + "-";
        assert kind == (kind + "-")[..|kind|] == (asked + "-")[..|kind|] == asked;
        assert id[|kind| + 1..] == Decimal(n);
        AtoiOfDecimal(n);
      } else {
        var dash := |kind| - |asked| - 1;
        assert id[|kind|] == '-';
        var suffix := id[|asked| + 1..];
        assert suffix[dash] == '-';
      }
    }
  }

  /** Ids never coincide, whatever characters the kinds contain. */
  lemma JobIdsDiffer(kind: string, n: nat, kind': string, n': nat)
    requires n > 0 && n' > 0 && JobIdOf(kind, n) == JobIdOf(kind', n')
    ensures kind == kind' && n == n'
  {
    OrdinalOfJobId(kind, n, kind);
    OrdinalOfJobId(kind', n', kind);
  }
}
