/** Exact fixed-point decimal parsing in 64-bit arithmetic. */
module FixedDecimal {
  import opened Words
  import opened MaskedIncrement

  predicate IsDigit(c: char) {
    '0' <= c <= '9'
  }

  function DigitValue(c: char): (d: nat)
    requires IsDigit(c)
    ensures d <= 9
  {
    c as int - '0' as int
  }

  predicate AllDigits(s: string) {
    forall i :: 0 <= i < |s| ==> IsDigit(s[i])
  }

  function Pow10(k: nat): (r: nat)
    ensures r >= 1
  {
    if k == 0 then 1 else 10 * Pow10(k - 1)
  }

  /** The number a digit string writes. */
  function NumberOf(s: string): nat
    requires AllDigits(s)
  {
    if s == [] then 0 else 10 * NumberOf(s[..|s| - 1]) + DigitValue(s[|s| - 1])
  }

  /** Characters before the first dot, or all of them. */
  function DotIndex(s: string): (k: nat)
    ensures k <= |s|
    ensures forall i :: 0 <= i < k ==> s[i] != '.'
    ensures k < |s| ==> s[k] == '.'
  {
    if s == [] || s[0] == '.' then 0 else 1 + DotIndex(s[1..])
  }

  function IntegerDigits(s: string): string {
    s[..DotIndex(s)]
  }

  function FractionDigits(s: string): string {
    if DotIndex(s) < |s| then s[DotIndex(s) + 1..] else []
  }

  /** Only digits and at most one dot, and a digit somewhere. */
  predicate IsDecimal(s: string) {
    AllDigits(IntegerDigits(s)) && AllDigits(FractionDigits(s)) && IntegerDigits(s) + FractionDigits(s) != []
  }

  /** The decimal number times ten to the `places`, rounded down. */
  function Scaled(s: string, places: nat): nat
    requires IsDecimal(s)
  {
    ScaledParts(IntegerDigits(s), FractionDigits(s), places)
  }

  function ScaledParts(i: string, f: string, places: nat): nat
    requires AllDigits(i) && AllDigits(f)
  {
    Quotient(Times(NumberOf(i + f), Pow10(places)), Pow10(|f|))
  }

  /** Product and quotient by repeated addition and subtraction, which keeps nonlinear arithmetic
      out of every proof but those of the two lemmas below. */
  function Times(a: nat, b: nat): nat {
    if b == 0 then 0 else Times(a, b - 1) + a
  }

  function Quotient(a: nat, b: nat): nat
    requires b >= 1
  {
    if a < b then 0 else 1 + Quotient(a - b, b)
  }

  lemma {:induction false} TimesIsProduct(a: nat, b: nat)
    ensures Times(a, b) == a * b
  {
    if b > 0 {
      TimesIsProduct(a, b - 1);
      MulDistributes(a, b, 1);
    }
  }

  lemma {:induction false} QuotientIsDivision(a: nat, b: nat)
    requires b >= 1
    ensures Quotient(a, b) == a / b
  {
    if a < b {
      assert a == b * 0 + a;
      QuotientUnique(a, b, 0, a);
    } else {
      QuotientIsDivision(a - b, b);
      var q, r := (a - b) / b, (a - b) % b;
      MulDistributes(b, q + 1, q);
      QuotientUnique(a, b, q + 1, r);
    }
  }

  /** The scaled value is the floor of the number times ten to the `places`. */
  lemma ScaledIsFloor(s: string, places: nat)
    requires IsDecimal(s)
    ensures Scaled(s, places) == (NumberOf(DigitsOf(s)) * Pow10(places)) / Pow10(|FractionDigits(s)|)
  {
    TimesIsProduct(NumberOf(DigitsOf(s)), Pow10(places));
    QuotientIsDivision(Times(NumberOf(DigitsOf(s)), Pow10(places)), Pow10(|FractionDigits(s)|));
  }

  /** The digits of the number without the dot. */
  function DigitsOf(s: string): (digits: string)
    requires IsDecimal(s)
    ensures AllDigits(digits)
  {
    IntegerDigits(s) + FractionDigits(s)
  }

  // ---- Digit arithmetic ----

  /** The fraction digits that count. */
  function Kept(f: string, places: nat): (k: string)
    ensures |k| == Min(places, |f|)
  {
    f[..Min(places, |f|)]
  }

  lemma KeptNext(f: string, c: char, places: nat)
    ensures Kept(f + [c], places) == if |f| < places then Kept(f, places) + [c] else Kept(f, places)
  {}

  lemma NumberOfNext(a: string, c: char)
    requires AllDigits(a) && IsDigit(c)
    ensures AllDigits(a + [c]) && NumberOf(a + [c]) == 10 * NumberOf(a) + DigitValue(c)
  {
    var b := a + [c];
    assert b[..|b| - 1] == a && b[|b| - 1] == c;
  }

  lemma {:induction false} NumberBound(s: string)
    requires AllDigits(s)
    ensures NumberOf(s) < Pow10(|s|)
  {
    if s != [] {
      NumberBound(s[..|s| - 1]);
    }
  }

  lemma {:induction false} NumberOfConcat(a: string, b: string)
    requires AllDigits(a) && AllDigits(b)
    ensures AllDigits(a + b)
    ensures NumberOf(a + b) == Times(NumberOf(a), Pow10(|b|)) + NumberOf(b)
  {
    if b == [] {
      assert a + b == a;
      TimesIsProduct(NumberOf(a), 1);
    } else {
      var c, last := b[..|b| - 1], b[|b| - 1];
      assert b == c + [last];
      assert a + b == (a + c) + [last];
      NumberOfConcat(a, c);
      NumberOfNext(a + c, last);
      NumberOfNext(c, last);
      TimesTen(NumberOf(a), Pow10(|c|));
    }
  }

  lemma TimesTen(x: nat, y: nat)
    ensures 10 * Times(x, y) == Times(x, 10 * y) == Times(10 * x, y)
  {
    TimesIsProduct(x, y);
    TimesIsProduct(x, 10 * y);
    TimesIsProduct(10 * x, y);
    Associate(x, y, 10);
  }

  lemma Associate(x: int, y: int, z: int)
    ensures z * (x * y) == x * (z * y) == (x * z) * y
  {}

  lemma Distribute(x: int, y: int, z: int)
    ensures (x + y) * z == x * z + y * z
  {}

  lemma {:induction false} Pow10Sum(a: nat, b: nat)
    ensures Pow10(a + b) == Times(Pow10(a), Pow10(b))
  {
    if a == 0 {
      TimesIsProduct(1, Pow10(b));
    } else {
      Pow10Sum(a - 1, b);
      TimesTen(Pow10(a - 1), Pow10(b));
    }
  }

  lemma {:induction false} Pow10Monotone(a: nat, b: nat)
    requires a <= b
    ensures Pow10(a) <= Pow10(b)
  {
    if a < b {
      Pow10Monotone(a, b - 1);
    }
  }

  lemma Pow10OfEighteen()
    ensures Pow10(18) == 1_000_000_000_000_000_000
  {
    assert Pow10(6) == 1_000_000;
    Pow10Sum(6, 6);
    TimesIsProduct(1_000_000, 1_000_000);
    Pow10Sum(12, 6);
    TimesIsProduct(1_000_000_000_000, 1_000_000);
  }

  /** Integer digits, and as many fraction digits as there are places, padded with zeros. */
  ghost predicate AssembledFrom(v: nat, i: string, f: string, places: nat)
    requires AllDigits(i) && AllDigits(f)
  {
    v == Times(NumberOf(i), Pow10(places)) + Times(NumberOf(Kept(f, places)), Pow10(places - |Kept(f, places)|))
  }

  /** The scaled value is what the parser assembles. */
  lemma ScaledIsAssembled(s: string, places: nat)
    requires IsDecimal(s)
    ensures AssembledFrom(Scaled(s, places), IntegerDigits(s), FractionDigits(s), places)
  {
    if |FractionDigits(s)| <= places {
      ShortAssembled(IntegerDigits(s), FractionDigits(s), places);
    } else {
      LongAssembled(IntegerDigits(s), FractionDigits(s), places);
    }
  }

  lemma ShortAssembled(i: string, f: string, places: nat)
    requires AllDigits(i) && AllDigits(f) && |f| <= places
    ensures AssembledFrom(ScaledParts(i, f, places), i, f, places)
  {
    NumberOfConcat(i, f);
    assert Kept(f, places) == f;
    ShortFraction(NumberOf(i), NumberOf(f), |f|, places);
  }

  lemma LongAssembled(i: string, f: string, places: nat)
    requires AllDigits(i) && AllDigits(f) && |f| > places
    ensures AssembledFrom(ScaledParts(i, f, places), i, f, places)
  {
    NumberOfConcat(i, f);
    SplitFraction(f, places);
    LongFraction(NumberOf(i), NumberOf(f), NumberOf(Kept(f, places)), NumberOf(f[places..]), |f| - places, places);
  }

  /** A fraction cut after `places` digits. */
  lemma SplitFraction(f: string, places: nat)
    requires AllDigits(f) && |f| > places
    ensures |Kept(f, places)| == places && AllDigits(Kept(f, places)) && AllDigits(f[places..])
    ensures NumberOf(f) == Times(NumberOf(Kept(f, places)), Pow10(|f| - places)) + NumberOf(f[places..])
    ensures NumberOf(f[places..]) < Pow10(|f| - places)
  {
    var kept, cut := Kept(f, places), f[places..];
    assert f == kept + cut;
    NumberOfConcat(kept, cut);
    NumberBound(cut);
  }

  lemma ShortFraction(i: nat, f: nat, length: nat, places: nat)
    requires length <= places
    ensures Quotient(Times(Times(i, Pow10(length)) + f, Pow10(places)), Pow10(length))
         == Times(i, Pow10(places)) + Times(f, Pow10(places - length))
  {
    var power := PowerSplit(length, places - length);
    PaddedQuotient(i, f, Pow10(length), Pow10(places - length), power);
  }

  lemma LongFraction(i: nat, f: nat, kept: nat, cut: nat, rest: nat, places: nat)
    requires f == Times(kept, Pow10(rest)) + cut && cut < Pow10(rest)
    ensures Quotient(Times(Times(i, Pow10(places + rest)) + f, Pow10(places)), Pow10(places + rest))
         == Times(i, Pow10(places)) + Times(kept, Pow10(0))
  {
    var power := PowerSplit(places, rest);
    TruncatedQuotient(i, f, kept, cut, Pow10(places), Pow10(rest), power);
    TimesOne(kept);
  }

  /** Ten to the sum, as a product. */
  lemma PowerSplit(a: nat, b: nat) returns (power: nat)
    ensures power == Pow10(a + b) == Times(Pow10(a), Pow10(b))
  {
    Pow10Sum(a, b);
    power := Pow10(a + b);
  }

  lemma TimesOne(k: nat)
    ensures Times(k, Pow10(0)) == k
  {
    TimesIsProduct(k, 1);
  }

  lemma PaddedQuotient(i: nat, f: nat, p: nat, q: nat, pq: nat)
    requires p >= 1 && pq == Times(p, q)
    ensures Quotient(Times(Times(i, p) + f, pq), p) == Times(i, pq) + Times(f, q)
  {
    var n := Times(i, p) + f;
    TimesIsProduct(i, p);
    TimesIsProduct(p, q);
    TimesIsProduct(n, pq);
    TimesIsProduct(i, pq);
    TimesIsProduct(f, q);
    QuotientIsDivision(Times(n, pq), p);
    Associate(n, q, p);
    Distribute(i * p, f, q);
    Associate(i, q, p);
    DivideProduct(n * pq, p, n * q);
  }

  lemma DivideProduct(x: nat, p: nat, q: int)
    requires p >= 1 && x == p * q
    ensures x / p == q
  {
    QuotientUnique(x, p, q, 0);
  }

  lemma TruncatedQuotient(i: nat, f: nat, kept: nat, cut: nat, p: nat, q: nat, pq: nat)
    requires p >= 1 && q >= 1 && cut < q && f == Times(kept, q) + cut && pq == Times(p, q) && pq >= 1
    ensures Quotient(Times(Times(i, pq) + f, p), pq) == Times(i, p) + kept
  {
    var n := Times(i, p) + kept;
    var all := Times(i, pq) + f;
    TimesIsProduct(i, p);
    TimesIsProduct(kept, q);
    TimesIsProduct(p, q);
    TimesIsProduct(i, pq);
    TimesIsProduct(all, p);
    QuotientIsDivision(Times(all, p), pq);
    Associate(i, q, p);
    Distribute(i * p, kept, q);
    assert all == n * q + cut;
    Distribute(n * q, cut, p);
    Associate(n, p, q);
    Associate(p, q, n);
    ProductBelow(cut, q, p);
    QuotientUnique(all * p, pq, n, cut * p);
  }

  lemma ProductBelow(a: nat, b: nat, p: nat)
    requires a < b && p >= 1
    ensures 0 <= a * p < p * b
  {
    MulDistributes(p, b, a);
    MulAtLeast(p, b - a);
  }

  // ---- The parser ----

  const U64_MAX: u64 := U64_LIMIT - 1

  method Assemble(intPart: u64, places: nat, fracPart: u64, pad: nat) returns (ok: bool, out: u64)
    requires places <= 18 && pad <= 18
    ensures ok <==> Times(intPart, Pow10(places)) + Times(fracPart, Pow10(pad)) < U64_LIMIT
    ensures ok ==> out == Times(intPart, Pow10(places)) + Times(fracPart, Pow10(pad))
  {
    Pow10OfEighteen();
    Pow10Monotone(places, 18);
    Pow10Monotone(pad, 18);
    var scaleInt: u64 := Pow10(places);
    var scaleFrac: u64 := Pow10(pad);
    TimesIsProduct(intPart, scaleInt);
    TimesIsProduct(fracPart, scaleFrac);
    MulFits(intPart, scaleInt);
    MulFits(fracPart, scaleFrac);
    var term1: u64 := 0;
    if intPart != 0 {
      if intPart > U64_MAX / scaleInt {
        return false, 0;
      }
      term1 := intPart * scaleInt;
    }
    var term2: u64 := 0;
    if fracPart != 0 {
      if fracPart > U64_MAX / scaleFrac {
        return false, 0;
      }
      term2 := fracPart * scaleFrac;
    }
    if term1 > U64_MAX - term2 {
      return false, 0;
    }
    return true, term1 + term2;
  }

  /** The division test before a multiplication rejects exactly the products that do not fit. */
  lemma MulFits(a: u64, b: u64)
    requires b >= 1
    ensures 0 <= a * b
    ensures a <= U64_MAX / b <==> a * b < U64_LIMIT
  {
    var q, r := U64_MAX / b, U64_MAX % b;
    assert U64_MAX == b * q + r;
    MulDistributes(b, q, a);
    MulDistributes(b, a, q);
    if a <= q {
      assert b * (q - a) >= 0;
    } else {
      MulAtLeast(b, a - q);
    }
  }

  /** The test before `10 * a + d`, likewise. */
  lemma DigitFits(a: u64, d: nat)
    requires d <= 9
    ensures a > (U64_MAX - d) / 10 <==> 10 * a + d >= U64_LIMIT
  {}

  // ---- One more character of the scan ----

  lemma DotIndexOfPrefix(s: string, p: nat)
    requires p <= |s|
    ensures DotIndex(s[..p]) == Min(p, DotIndex(s))
  {
    var a := s[..p];
    var k := DotIndex(a);
    assert forall i :: 0 <= i < p ==> a[i] == s[i];
    if k < p {
      assert s[k] == '.';
    }
  }

  /** The parts of a prefix in terms of the whole string. */
  lemma PartsOfPrefix(s: string, p: nat)
    requires p <= |s|
    ensures var k := DotIndex(s);
            && DotIndex(s[..p]) == Min(p, k)
            && IntegerDigits(s[..p]) == s[..Min(p, k)]
            && FractionDigits(s[..p]) == if k < p then s[k + 1..p] else []
  {
    DotIndexOfPrefix(s, p);
    var a, k := s[..p], DotIndex(s);
    if k < p {
      assert a[..k] == s[..k] && a[k + 1..] == s[k + 1..p];
    } else {
      assert a[..p] == s[..p];
    }
  }

  lemma NextCharacter(s: string, p: nat)
    requires p < |s|
    ensures var a, b := s[..p], s[..p + 1];
            && (DotIndex(b) == p + 1 <==> DotIndex(a) == p && s[p] != '.')
            && IntegerDigits(b) == (if DotIndex(a) == p && s[p] != '.' then IntegerDigits(a) + [s[p]] else IntegerDigits(a))
            && FractionDigits(b) == (if DotIndex(a) < p then FractionDigits(a) + [s[p]] else [])
            && (DotIndex(a) == p ==> FractionDigits(a) == [] && IntegerDigits(a) == a)
  {
    PartsOfPrefix(s, p);
    PartsOfPrefix(s, p + 1);
    var k := DotIndex(s);
    assert k == p ==> s[p] == '.';
    assert k > p ==> s[p] != '.';
    assert s[..p + 1] == s[..p] + [s[p]];
    assert k < p ==> s[k + 1..p + 1] == s[k + 1..p] + [s[p]];
  }

  lemma BadCharacter(s: string, p: nat)
    requires p < |s| && !IsDigit(s[p]) && (s[p] == '.' ==> DotIndex(s[..p]) < p)
    ensures !IsDecimal(s)
  {
    DotIndexOfPrefix(s, p);
    var k := DotIndex(s);
    if p < k {
      assert IntegerDigits(s)[p] == s[p];
    } else {
      assert FractionDigits(s)[p - k - 1] == s[p];
    }
  }

  lemma TooManyIntegerDigits(s: string, n: nat, places: nat)
    requires n <= |s| && AllDigits(s[..n]) && NumberOf(s[..n]) >= U64_LIMIT
    ensures IsDecimal(s) ==> Scaled(s, places) >= U64_LIMIT
  {
    if IsDecimal(s) {
      var k := DotIndex(s);
      DigitsBeforeDot(s, n);
      var rest := s[n..k];
      assert IntegerDigits(s) == s[..n] + rest;
      assert forall i :: 0 <= i < |rest| ==> rest[i] == IntegerDigits(s)[n + i];
      NumberOfConcat(s[..n], rest);
      MulGrows(NumberOf(s[..n]), Pow10(|rest|));
      ScaledAtLeastInteger(s, places);
    }
  }

  lemma DigitsBeforeDot(s: string, n: nat)
    requires n <= |s| && AllDigits(s[..n])
    ensures n <= DotIndex(s)
  {
    DotIndexOfPrefix(s, n);
    var k := DotIndex(s[..n]);
    assert k < n ==> IsDigit(s[..n][k]);
  }

  lemma ScaledAtLeastInteger(s: string, places: nat)
    requires IsDecimal(s)
    ensures Scaled(s, places) >= NumberOf(IntegerDigits(s))
  {
    ScaledIsAssembled(s, places);
    MulGrows(NumberOf(IntegerDigits(s)), Pow10(places));
  }

  lemma MulGrows(a: nat, b: nat)
    requires b >= 1
    ensures Times(a, b) >= a
  {
    TimesIsProduct(a, b);
    MulAtLeastLeft(a, b);
  }

  lemma MulAtLeastLeft(a: nat, b: nat)
    requires b >= 1
    ensures a * b >= a
  {}

  /** The accumulators of the scan, as a description of the characters seen. */
  datatype Scan = Scan(intPart: u64, fracPart: u64, fracDigits: nat, hasDigit: bool, sawDot: bool)

  ghost predicate Describes(t: Scan, a: string, places: nat) {
    var i, f := IntegerDigits(a), FractionDigits(a);
    && AllDigits(i) && AllDigits(f)
    && t.sawDot == (DotIndex(a) < |a|)
    && t.hasDigit == (i + f != [])
    && t.intPart == NumberOf(i)
    && t.fracDigits == |Kept(f, places)|
    && AllDigits(Kept(f, places))
    && t.fracPart == NumberOf(Kept(f, places))
  }

  lemma IntegerDigitStep(t: Scan, s: string, p: nat, places: nat)
    requires p < |s| && Describes(t, s[..p], places) && IsDigit(s[p]) && !t.sawDot
    requires 10 * t.intPart + DigitValue(s[p]) < U64_LIMIT
    ensures Describes(t.(intPart := 10 * t.intPart + DigitValue(s[p]), hasDigit := true), s[..p + 1], places)
  {
    NextCharacter(s, p);
    NumberOfNext(IntegerDigits(s[..p]), s[p]);
  }

  lemma IntegerOverflow(t: Scan, s: string, p: nat, places: nat)
    requires p < |s| && Describes(t, s[..p], places) && IsDigit(s[p]) && !t.sawDot
    requires 10 * t.intPart + DigitValue(s[p]) >= U64_LIMIT
    ensures IsDecimal(s) ==> Scaled(s, places) >= U64_LIMIT
  {
    NextCharacter(s, p);
    NumberOfNext(IntegerDigits(s[..p]), s[p]);
    assert IntegerDigits(s[..p]) + [s[p]] == s[..p + 1];
    TooManyIntegerDigits(s, p + 1, places);
  }

  lemma FractionDigitStep(t: Scan, s: string, p: nat, places: nat)
    requires p < |s| && Describes(t, s[..p], places) && IsDigit(s[p]) && t.sawDot && t.fracDigits < places <= 18
    ensures 10 * t.fracPart + DigitValue(s[p]) < U64_LIMIT
    ensures Describes(t.(fracPart := 10 * t.fracPart + DigitValue(s[p]), fracDigits := t.fracDigits + 1, hasDigit := true),
                      s[..p + 1], places)
  {
    NextCharacter(s, p);
    var f, f' := FractionDigits(s[..p]), FractionDigits(s[..p + 1]);
    assert f' == f + [s[p]];
    KeptNext(f, s[p], places);
    KeptDigitFits(Kept(f, places), s[p]);
    assert Kept(f', places) == Kept(f, places) + [s[p]];
  }

  lemma IgnoredDigitStep(t: Scan, s: string, p: nat, places: nat)
    requires p < |s| && Describes(t, s[..p], places) && IsDigit(s[p]) && t.sawDot && t.fracDigits == places
    ensures Describes(t.(hasDigit := true), s[..p + 1], places)
  {
    NextCharacter(s, p);
    KeptNext(FractionDigits(s[..p]), s[p], places);
  }

  lemma KeptDigitFits(a: string, c: char)
    requires AllDigits(a) && IsDigit(c) && |a| < 18
    ensures AllDigits(a + [c]) && NumberOf(a + [c]) == 10 * NumberOf(a) + DigitValue(c) < U64_LIMIT
  {
    NumberOfNext(a, c);
    NumberBound(a + [c]);
    Pow10OfEighteen();
    Pow10Monotone(|a| + 1, 18);
  }

  lemma DotStep(t: Scan, s: string, p: nat, places: nat)
    requires p < |s| && Describes(t, s[..p], places) && s[p] == '.' && !t.sawDot
    ensures Describes(t.(sawDot := true), s[..p + 1], places)
  {
    NextCharacter(s, p);
  }

  lemma ScanEnd(t: Scan, s: string, places: nat)
    requires Describes(t, s, places)
    ensures IsDecimal(s) <==> t.hasDigit
    ensures t.fracDigits <= places
    ensures t.hasDigit ==> Scaled(s, places) == Times(t.intPart, Pow10(places)) + Times(t.fracPart, Pow10(places - t.fracDigits))
  {
    if t.hasDigit {
      ScaledIsAssembled(s, places);
    }
  }

  ghost predicate Representable(s: string, places: nat) {
    places <= 18 && IsDecimal(s) && Scaled(s, places) < U64_LIMIT
  }

  /** The number a string stands for, if the parser accepts it. */
  ghost function Decimal(s: string, places: nat): Option<u64> {
    if Representable(s, places) then Some(Scaled(s, places)) else None
  }

  /** One digit: false when the integer part no longer fits. */
  method ScanDigit(s: string, p: nat, places: nat, t: Scan) returns (ok: bool, t': Scan)
    requires p < |s| && places <= 18 && Describes(t, s[..p], places) && IsDigit(s[p]) && t.fracDigits <= places
    ensures if ok then Describes(t', s[..p + 1], places) && t'.fracDigits <= places else !Representable(s, places)
  {
    var digit := DigitValue(s[p]);
    if !t.sawDot {
      DigitFits(t.intPart, digit);
      if t.intPart > (U64_MAX - digit) / 10 {
        IntegerOverflow(t, s, p, places);
        return false, t;
      }
      IntegerDigitStep(t, s, p, places);
      return true, t.(intPart := 10 * t.intPart + digit, hasDigit := true);
    }
    if t.fracDigits < places {
      FractionDigitStep(t, s, p, places);
      DigitFits(t.fracPart, digit);
      if t.fracPart > (U64_MAX - digit) / 10 {
        assert false;  // at most 18 digits are kept, so this rejection never happens
      }
      return true, t.(fracPart := 10 * t.fracPart + digit, fracDigits := t.fracDigits + 1, hasDigit := true);
    }
    IgnoredDigitStep(t, s, p, places);
    return true, t.(hasDigit := true);
  }

  lemma EmptyScan(places: nat)
    ensures Describes(Scan(0, 0, 0, false, false), [], places)
  {}

  /** The single pass over the characters. */
  method ScanCharacters(s: string, places: nat) returns (ok: bool, t: Scan)
    requires places <= 18
    ensures if ok then Describes(t, s, places) else !Representable(s, places)
  {
    ok, t := true, Scan(0, 0, 0, false, false);
    var p := 0;
    EmptyScan(places);
    assert s[..0] == [];
    while p < |s|
      invariant ok && p <= |s|
      invariant t.fracDigits <= places
      invariant Describes(t, s[..p], places)
    {
      if IsDigit(s[p]) {
        ok, t := ScanDigit(s, p, places, t);
        if !ok {
          return;
        }
      } else if s[p] == '.' && !t.sawDot {
        DotStep(t, s, p, places);
        t := t.(sawDot := true);
      } else {
        BadCharacter(s, p);
        return false, t;
      }
      p := p + 1;
    }
    assert s[..p] == s;
  }

  /** Exact and complete: it accepts exactly the decimal strings whose scaled value fits in 64 bits,
      and returns that value. No overflow check rejects a representable number. */
  method ParseFixedDecimalString(s: string, places: nat) returns (ok: bool, out: u64)
    ensures ok <==> places <= 18 && IsDecimal(s) && Scaled(s, places) < U64_LIMIT
    ensures ok ==> out == Scaled(s, places)
    ensures Decimal(s, places) == if ok then Some(out) else None
  {
    if s == [] || places > 18 {
      return false, 0;
    }
    var scanned, t := ScanCharacters(s, places);
    if !scanned {
      return false, 0;
    }
    ScanEnd(t, s, places);
    if !t.hasDigit {
      return false, 0;
    }
    ok, out := Assemble(t.intPart, places, t.fracPart, places - t.fracDigits);
  }

  // ---- Printing and parsing back ----

  /** The value as a decimal string with exactly `places` fraction digits. */
  function Digits(n: nat, width: nat): (s: string)
    ensures |s| >= width && AllDigits(s) && NumberOf(s) == n
    decreases n, width
  {
    if n == 0 && width == 0 then []
    else Digits(n / 10, if width == 0 then 0 else width - 1) + [('0' as int + n % 10) as char]
  }

  function Pointed(digits: string, places: nat): string
    requires places <= |digits|
  {
    digits[..|digits| - places] + "." + digits[|digits| - places..]
  }

  function Rendered(v: u64, places: nat): string {
    Pointed(Digits(v, places + 1), places)
  }

  lemma SplitAtDot(i: string, f: string)
    requires AllDigits(i)
    ensures IntegerDigits(i + "." + f) == i && FractionDigits(i + "." + f) == f
  {
    var s := i + "." + f;
    assert s[|i|] == '.';
    assert forall j :: 0 <= j < |i| ==> s[j] == i[j] && IsDigit(s[j]);
    assert DotIndex(s) == |i|;
  }

  lemma PointedParses(digits: string, v: nat, places: nat)
    requires AllDigits(digits) && NumberOf(digits) == v && places < |digits|
    ensures IsDecimal(Pointed(digits, places)) && Scaled(Pointed(digits, places), places) == v
  {
    var i, f := digits[..|digits| - places], digits[|digits| - places..];
    assert i + f == digits;
    SplitAtDot(i, f);
    PartsOfWhole(i, f, v, places);
  }

  /** A rendered number is accepted and parses back to itself. */
  lemma RenderedParsesBack(v: u64, places: nat)
    ensures IsDecimal(Rendered(v, places)) && Scaled(Rendered(v, places), places) == v
  {
    PointedParses(Digits(v, places + 1), v, places);
  }

  lemma PartsOfWhole(i: string, f: string, v: nat, places: nat)
    requires AllDigits(i) && AllDigits(f) && |f| == places && NumberOf(i + f) == v
    ensures ScaledParts(i, f, places) == v
  {
    WholeQuotient(v, Pow10(places));
  }

  lemma WholeQuotient(v: nat, p: nat)
    requires p >= 1
    ensures Quotient(Times(v, p), p) == v
  {
    TimesIsProduct(v, p);
    QuotientIsDivision(Times(v, p), p);
    DivideProduct(v * p, p, v);
  }
}
