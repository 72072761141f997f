/**
 * The credit card check of files-IoT/www/lib/jquery.validate.js:1005-1031: the check digit of Annex B of
 * ISO/IEC 7812-1 over the digits of a value that may hold dashes.
 */
module Luhn {
  predicate IsDigit(c: char)
  {
    '0' <= c <= '9'
  }

  type Digit = c: char | IsDigit(c) witness '0'

  predicate OnlyDigitsAndDashes(value: string)
  {
    forall i :: 0 <= i < |value| ==> IsDigit(value[i]) || value[i] == '-'
  }

  predicate OnlyDashes(value: string)
  {
    forall i :: 0 <= i < |value| ==> value[i] == '-'
  }

  function Kept(c: char): seq<Digit>
  {
    if IsDigit(c) then [c] else []
  }

  function Digits(value: string): seq<Digit>
  {
    if value == [] then [] else Kept(value[0]) + Digits(value[1..])
  }

  function Value(c: Digit): (n: nat)
    ensures n <= 9
  {
    c as int - '0' as int
  }

  /** The digit, or at the doubled places the sum of the decimal digits of its double. */
  function Weighted(c: Digit, doubled: bool): nat
  {
    if doubled then (2 * Value(c)) / 10 + (2 * Value(c)) % 10 else Value(c)
  }

  lemma WeightedValue(c: Digit)
    ensures Weighted(c, false) == Value(c)
    ensures Weighted(c, true) == if Value(c) <= 4 then 2 * Value(c) else 2 * Value(c) - 9
  {
  }

  /** From the right, every other digit is doubled, beginning with the second one unless told otherwise. */
  function Sum(ds: seq<Digit>, doubled: bool): nat
  {
    if ds == [] then 0 else Weighted(ds[|ds| - 1], doubled) + Sum(ds[..|ds| - 1], !doubled)
  }

  predicate Accepts(value: string)
  {
    OnlyDigitsAndDashes(value) && Sum(Digits(value), false) % 10 == 0
  }

  predicate Flip(doubled: bool, n: nat)
  {
    if n % 2 == 0 then doubled else !doubled
  }

  lemma {:induction false} DigitsConcat(a: string, b: string)
    ensures Digits(a + b) == Digits(a) + Digits(b)
  {
    hide Kept;
    if a == [] {
      assert a + b == b;
    } else {
      assert (a + b)[1..] == a[1..] + b && (a + b)[0] == a[0];
      DigitsConcat(a[1..], b);
      assert Digits(a + b) == Kept(a[0]) + (Digits(a[1..]) + Digits(b));
    }
  }

  lemma {:induction false} SumConcat(a: seq<Digit>, b: seq<Digit>, doubled: bool)
    ensures Sum(a + b, doubled) == Sum(b, doubled) + Sum(a, Flip(doubled, |b|))
    decreases |b|
  {
    hide Weighted;
    if b == [] {
      assert a + b == a;
    } else {
      assert (a + b)[..|a + b| - 1] == a + b[..|b| - 1];
      SumConcat(a, b[..|b| - 1], !doubled);
    }
  }

  lemma SumSnoc(a: seq<Digit>, c: Digit, doubled: bool)
    ensures Sum(a + [c], doubled) == Weighted(c, doubled) + Sum(a, !doubled)
  {
    hide Weighted;
    assert (a + [c])[..|a|] == a;
  }

  lemma FlipNext(doubled: bool, n: nat)
    ensures Flip(doubled, n + 1) == !Flip(doubled, n)
  {
  }

  /** What one digit adds, in its place. */
  lemma SumAround(a: seq<Digit>, c: Digit, b: seq<Digit>)
    ensures
      Sum(a + [c] + b, false) ==
      Sum(b, false) + Weighted(c, Flip(false, |b|)) + Sum(a, Flip(false, |b| + 1))
  {
    hide Weighted, Sum, Flip;
    SumConcat(a + [c], b, false);
    SumSnoc(a, c, Flip(false, |b|));
    FlipNext(false, |b|);
  }

  lemma WeightedIsInjective(c: Digit, d: Digit, doubled: bool)
    requires c != d
    ensures 0 <= Weighted(c, doubled) <= 9 && 0 <= Weighted(d, doubled) <= 9
    ensures Weighted(c, doubled) != Weighted(d, doubled)
  {
    hide Weighted;
    WeightedValue(c);
    WeightedValue(d);
    assert Value(c) != Value(d);
  }

  lemma {:induction false} DigitsOfDashes(m: string)
    requires OnlyDashes(m)
    ensures Digits(m) == []
  {
    if m == [] {
    } else {
      DigitsOfDashes(m[1..]);
    }
  }

  lemma DigitsAround(a: string, c: Digit, b: string)
    ensures Digits(a + [c] + b) == Digits(a) + [c] + Digits(b)
  {
    DigitsConcat(a + [c], b);
    DigitsConcat(a, [c]);
    assert Digits([c]) == [c] by {
      assert [c][1..] == [];
    }
  }

  /** Dashes make no difference. */
  lemma DashesAreIgnored(a: string, m: string, b: string)
    requires OnlyDashes(m)
    ensures Accepts(a + m + b) <==> Accepts(a + b)
  {
    hide Digits, Sum;
    DigitsConcat(a + m, b);
    DigitsConcat(a, m);
    DigitsConcat(a, b);
    DigitsOfDashes(m);
    AllowedConcat(a, b);
    AllowedConcat(a, m);
    AllowedConcat(a + m, b);
    assert OnlyDigitsAndDashes(m);
    assert Digits(a) + [] + Digits(b) == Digits(a) + Digits(b);
  }

  lemma AllowedConcat(a: string, b: string)
    ensures OnlyDigitsAndDashes(a + b) <==> OnlyDigitsAndDashes(a) && OnlyDigitsAndDashes(b)
  {
    if OnlyDigitsAndDashes(a + b) {
      forall i | 0 <= i < |a| ensures IsDigit(a[i]) || a[i] == '-' {
        assert a[i] == (a + b)[i];
      }
      forall i | 0 <= i < |b| ensures IsDigit(b[i]) || b[i] == '-' {
        assert b[i] == (a + b)[|a| + i];
      }
    }
  }

  /** A single wrong digit is always noticed. */
  lemma SingleDigitError(a: string, c: Digit, d: Digit, b: string)
    requires Accepts(a + [c] + b) && c != d
    ensures !Accepts(a + [d] + b)
  {
    hide Weighted, Digits, Sum;
    DigitsAround(a, c, b);
    DigitsAround(a, d, b);
    SumAround(Digits(a), c, Digits(b));
    SumAround(Digits(a), d, Digits(b));
    WeightedIsInjective(c, d, Flip(false, |Digits(b)|));
  }

  predicate ZeroAndNine(c: Digit, d: Digit)
  {
    (c == '0' && d == '9') || (c == '9' && d == '0')
  }

  /** w is how much doubling adds to the digit sum: x for a small digit, x - 9 for a large one. */
  lemma SwapValues(x: nat, y: nat)
    requires x <= 9 && y <= 9 && x != y
    ensures
      var v, w := if x <= 4 then x else x - 9, if y <= 4 then y else y - 9;
      (w - v) % 10 == 0 <==> (x == 0 && y == 9) || (x == 9 && y == 0)
  {
  }

  lemma SwapWeights(c: Digit, d: Digit, doubled: bool)
    requires c != d
    ensures
      (Weighted(d, doubled) + Weighted(c, !doubled) - Weighted(c, doubled) - Weighted(d, !doubled)) % 10 == 0
      <==> ZeroAndNine(c, d)
  {
    hide Weighted;
    WeightedValue(c);
    WeightedValue(d);
    var x, y := Value(c), Value(d);
    SwapValues(x, y);
    assert ZeroAndNine(c, d) <==> (x == 0 && y == 9) || (x == 9 && y == 0);
  }

  /** What two neighbouring digits add, dashes between them or not. */
  lemma PairSum(a: string, c: Digit, m: string, d: Digit, b: string)
    requires OnlyDashes(m)
    ensures
      var ds, e := Digits(b), Flip(false, |Digits(b)|);
      Sum(Digits(a + [c] + m + [d] + b), false) ==
      Sum(ds, false) + Weighted(d, e) + Weighted(c, !e) + Sum(Digits(a), e)
  {
    hide Weighted, Digits, Sum, Flip;
    var ds, e := Digits(b), Flip(false, |Digits(b)|);
    DigitsAround(a + [c] + m, d, b);
    DigitsAround(a, c, m);
    DigitsOfDashes(m);
    assert Digits(a) + [c] + [] == Digits(a) + [c];
    SumAround(Digits(a) + [c], d, ds);
    FlipNext(false, |ds|);
    SumSnoc(Digits(a), c, !e);
  }

  lemma AllowedSwap(a: string, c: Digit, m: string, d: Digit, b: string)
    requires OnlyDigitsAndDashes(a + [c] + m + [d] + b)
    ensures OnlyDigitsAndDashes(a + [d] + m + [c] + b)
  {
    hide OnlyDigitsAndDashes;
    AllowedConcat(a + [c] + m + [d], b);
    AllowedConcat(a + [c] + m, [d]);
    AllowedConcat(a + [c], m);
    AllowedConcat(a, [c]);
    AllowedConcat(a + [d] + m + [c], b);
    AllowedConcat(a + [d] + m, [c]);
    AllowedConcat(a + [d], m);
    AllowedConcat(a, [d]);
  }

  /** Two different neighbours can change places unnoticed exactly if they are 0 and 9. */
  lemma AdjacentSwap(a: string, c: Digit, m: string, d: Digit, b: string)
    requires Accepts(a + [c] + m + [d] + b) && OnlyDashes(m) && c != d
    ensures Accepts(a + [d] + m + [c] + b) <==> ZeroAndNine(c, d)
  {
    hide Weighted, Digits, Sum, ZeroAndNine, OnlyDigitsAndDashes;
    PairSum(a, c, m, d, b);
    PairSum(a, d, m, c, b);
    SwapWeights(c, d, Flip(false, |Digits(b)|));
    AllowedSwap(a, c, m, d, b);
  }

  function CheckDigit(payload: string): Digit
  {
    '0' + ((10 - Sum(Digits(payload), true) % 10) % 10) as char
  }

  /** Every payload is completed by one digit and no other. */
  lemma CheckDigitIsUnique(payload: string, d: Digit)
    requires OnlyDigitsAndDashes(payload)
    ensures Accepts(payload + [d]) <==> d == CheckDigit(payload)
  {
    hide Digits, Sum, OnlyDigitsAndDashes, Weighted;
    var sum := Sum(Digits(payload), true);
    DigitsSnoc(payload, d);
    SumSnoc(Digits(payload), d, false);
    WeightedValue(d);
    AllowedConcat(payload, [d]);
    assert OnlyDigitsAndDashes([d]) by { AllowedDigit(d); }
    Complement(Value(d), sum);
  }

  lemma DigitsSnoc(payload: string, d: Digit)
    ensures Digits(payload + [d]) == Digits(payload) + [d]
  {
    DigitsConcat(payload, [d]);
    assert [d][1..] == [];
  }

  lemma AllowedDigit(d: Digit)
    ensures OnlyDigitsAndDashes([d])
  {
  }

  lemma Complement(n: nat, sum: nat)
    requires n <= 9
    ensures (n + sum) % 10 == 0 <==> n == (10 - sum % 10) % 10
  {
    assert sum == sum / 10 * 10 + sum % 10;
  }

  /** Any other character is refused, wherever it stands. */
  lemma OtherCharacters(a: string, c: char, b: string)
    requires c !in "0123456789-"
    ensures !Accepts(a + [c] + b)
  {
    var value := a + [c] + b;
    assert value[|a|] == c;
    assert !IsDigit(c) by { DigitCharacters(c); }
  }

  lemma DigitCharacters(c: char)
    ensures IsDigit(c) <==> c in "0123456789"
    ensures IsDigit(c) ==> "0123456789"[Value(c)] == c
  {
  }

  /** An accepted number, dashes and all, and the same with a wrong last digit. */
  lemma ExampleNumbers()
    ensures Accepts("7992-739-871" + "3") && !Accepts("7992-739-871" + "0")
  {
    hide Sum, Digits, Accepts, OnlyDigitsAndDashes;
    ExampleAllowed();
    ExampleDigits();
    ExampleSum();
    CheckDigitIsUnique("7992-739-871", '3');
    CheckDigitIsUnique("7992-739-871", '0');
    assert "3" == ['3'] && "0" == ['0'];
  }

  lemma ExampleAllowed()
    ensures OnlyDigitsAndDashes("7992-739-871")
  {
  }

  lemma ExampleDigits()
    ensures Digits("7992-739-871") == "7992739871"
  {
    hide Digits;
    assert "7992-739-871" == "7992" + "-739-871" && "-739-871" == "-" + "739-871";
    assert "739-871" == "739" + "-871" && "-871" == "-" + "871";
    DigitsConcat("7992", "-739-871");
    DigitsConcat("-", "739-871");
    DigitsConcat("739", "-871");
    DigitsConcat("-", "871");
    DigitsOfDashes("-");
    DigitsOfDigits("7992");
    DigitsOfDigits("739");
    DigitsOfDigits("871");
  }

  lemma {:induction false} DigitsOfDigits(s: string)
    requires forall i :: 0 <= i < |s| ==> IsDigit(s[i])
    ensures Digits(s) == s
  {
    if s == [] {
    } else {
      DigitsOfDigits(s[1..]);
    }
  }

  /** From the last digit on 2 + 7 + 7 + 9 + 6 + 7 + 4 + 9 + 9 + 7, every other digit counted double. */
  lemma ExampleSum()
    ensures Sum("7992739871", true) == 67
  {
    hide Sum;
    assert "7992739871" == "799273987" + ['1'];
    assert "799273987" == "79927398" + ['7'];
    assert "79927398" == "7992739" + ['8'];
    assert "7992739" == "799273" + ['9'];
    assert "799273" == "79927" + ['3'];
    assert "79927" == "7992" + ['7'];
    assert "7992" == "799" + ['2'];
    assert "799" == "79" + ['9'];
    assert "79" == "7" + ['9'];
    assert "7" == "" + ['7'];
    SumOf("799273987", '1', true);
    SumOf("79927398", '7', false);
    SumOf("7992739", '8', true);
    SumOf("799273", '9', false);
    SumOf("79927", '3', true);
    SumOf("7992", '7', false);
    SumOf("799", '2', true);
    SumOf("79", '9', false);
    SumOf("7", '9', true);
    SumOf("", '7', false);
    NoSum();
  }

  lemma NoSum()
    ensures Sum([], true) == 0
  {
  }

  lemma SumOf(a: seq<Digit>, c: Digit, doubled: bool)
    ensures Sum(a + [c], doubled) == Sum(a, !doubled) +
      if !doubled then Value(c) else if Value(c) <= 4 then 2 * Value(c) else 2 * Value(c) - 9
  {
    hide Weighted;
    SumSnoc(a, c, doubled);
    WeightedValue(c);
  }
}

module CreditCard {
  import opened Luhn

  /** value.replace(/\D/g, "") */
  method StripNonDigits(value: string) returns (digits: seq<Digit>)
    ensures digits == Digits(value)
  {
    digits := [];
    for i := 0 to |value|
      invariant digits == Digits(value[..i])
    {
      assert value[..i + 1] == value[..i] + [value[i]];
      DigitsConcat(value[..i], [value[i]]);
      assert [value[i]][1..] == [];
      if IsDigit(value[i]) {
        digits := digits + [value[i]];
      }
    }
    assert value[..|value|] == value;
  }

  /** Once the field is known to hold a value. */
  method CreditCard(value: string) returns (valid: bool)
    ensures valid <==> Accepts(value)
  {
    hide Weighted, Digits;
    if !OnlyDigitsAndDashes(value) {
      return false;
    }
    var nCheck, bEven := 0, false;
    var digits := StripNonDigits(value);
    var n := |digits| - 1;
    assert digits[..n + 1] == digits;
    while n >= 0
      invariant -1 <= n < |digits|
      invariant nCheck >= 0 && nCheck + Sum(digits[..n + 1], bEven) == Sum(digits, false)
    {
      assert digits[..n + 1][..n] == digits[..n];
      WeightedValue(digits[n]);
      var nDigit := Value(digits[n]);
      if bEven {
        nDigit := nDigit * 2;
        if nDigit > 9 {
          nDigit := nDigit - 9;
        }
      }
      assert nDigit == Weighted(digits[n], bEven);
      nCheck := nCheck + nDigit;
      bEven := !bEven;
      n := n - 1;
    }
    valid := nCheck % 10 == 0;
  }
}
