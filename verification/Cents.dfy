/** Reading the price in cents out of a parsed JSON response. */
module Cents {
  import opened Bounded
  import opened Wrappers

  /** A JSON number as the lexer hands it over: its integer part, its fraction digits read as a
      whole number, and how many of them there are. */
  datatype Number = Number(integer: int, fraction: u64, fractionLength: nat)

  datatype Json = Object(entries: seq<(string, Json)>) | NumberValue(number: Number) | OtherValue

  /** What `parse_price` does: no price, a price, or a division by a power of ten that wrapped
      around to zero. */
  datatype Parsed = NoPrice | Price(cents: u32) | Panics

  function Power10(n: nat): (power: nat)
    ensures power > 0
  {
    if n == 0 then 1 else 10 * Power10(n - 1)
  }

  /** `10_u64.pow(n)`, which wraps around. */
  function Wrapped(n: nat): u64 {
    Power10(n) % 0x1_0000_0000_0000_0000
  }

  /** `fraction_length.checked_sub(2).unwrap_or(0)` */
  function ExtraDigits(n: Number): nat {
    if n.fractionLength < 2 then 0 else n.fractionLength - 2
  }

  /** The power of ten the source divides a fraction by. */
  function Divisor(n: Number): u64 {
    Wrapped(ExtraDigits(n))
  }

  /** Whole units and hundredths put together, each cut down to a u32 on the way. */
  function Combine(integer: int, hundredths: nat): u32 {
    AddU32(TruncateU32(TruncateU32(integer) * 100), TruncateU32(hundredths))
  }

  /** The conversion of the source, with its u32 and u64 arithmetic. */
  function ToCents(n: Number): Parsed {
    if Divisor(n) == 0 then Panics else Price(Combine(n.integer, Div(n.fraction, Divisor(n))))
  }

  function FindKey(entries: seq<(string, Json)>, key: string): Option<Json> {
    if entries == [] then None
    else if entries[0].0 == key then Some(entries[0].1)
    else FindKey(entries[1..], key)
  }

  /** `parse_price` after the lexer; None stands for text that is not JSON. */
  function ParsePrice(json: Option<Json>): Parsed {
    if json.None? || !json.value.Object? then NoPrice
    else
      match FindKey(json.value.entries, "USD")
      case Some(NumberValue(number)) => ToCents(number)
      case _ => NoPrice
  }

  // ---------------------------------------------------------------------
  // Which number is converted
  // ---------------------------------------------------------------------

  ghost predicate FirstEntry(entries: seq<(string, Json)>, key: string, i: nat) {
    && i < |entries| && entries[i].0 == key
    && forall j :: 0 <= j < i ==> entries[j].0 != key
  }

  lemma {:induction false} FindKeyFindsFirst(entries: seq<(string, Json)>, key: string, i: nat)
    requires FirstEntry(entries, key, i)
    ensures FindKey(entries, key) == Some(entries[i].1)
  {
    if i > 0 {
      assert entries[0].0 != key;
      FindKeyFindsFirst(entries[1..], key, i - 1);
    }
  }

  lemma {:induction false} FindKeyFindsNothing(entries: seq<(string, Json)>, key: string)
    requires forall j :: 0 <= j < |entries| ==> entries[j].0 != key
    ensures FindKey(entries, key) == None
  {
    if entries != [] {
      assert entries[0].0 != key;
      FindKeyFindsNothing(entries[1..], key);
    }
  }

  /** A response has a price exactly when it is an object whose first "USD" entry is a number,
      and then the price is that number converted. */
  lemma PriceOfFirstUsdEntry(entries: seq<(string, Json)>, i: nat)
    requires FirstEntry(entries, "USD", i)
    ensures ParsePrice(Some(Object(entries))) ==
            if entries[i].1.NumberValue? then ToCents(entries[i].1.number) else NoPrice
  {
    FindKeyFindsFirst(entries, "USD", i);
  }

  lemma NoPriceWithoutUsd(json: Option<Json>)
    requires json.Some? && json.value.Object? ==>
      forall j :: 0 <= j < |json.value.entries| ==> json.value.entries[j].0 != "USD"
    ensures ParsePrice(json) == NoPrice
  {
    if json.Some? && json.value.Object? {
      FindKeyFindsNothing(json.value.entries, "USD");
    }
  }

  // ---------------------------------------------------------------------
  // Powers of ten wrapped around to 64 bits
  // ---------------------------------------------------------------------

  /** The longest fraction whose power of ten fits in a u64. */
  const MAX_FRACTION_LENGTH: nat := 21

  lemma {:induction false} Power10Monotone(a: nat, b: nat)
    requires a <= b
    ensures Power10(a) <= Power10(b)
  {
    if a < b {
      Power10Monotone(a, b - 1);
    }
  }

  lemma NineteenZerosFit()
    ensures Power10(19) == 10_000_000_000_000_000_000 < TWO_64
  {
    assert Power10(10) == 10_000_000_000;
  }

  lemma TenTimesZero(x: nat)
    requires x % 0x1_0000_0000_0000_0000 == 0
    ensures 10 * x % 0x1_0000_0000_0000_0000 == 0
  {
    assert 10 * x == 0x1_0000_0000_0000_0000 * (10 * (x / 0x1_0000_0000_0000_0000));
  }

  /** Once a power of ten wraps around to zero, all later ones do. */
  lemma {:induction false} ZeroPersists(a: nat, b: nat)
    requires a <= b && Wrapped(a) == 0
    ensures Wrapped(b) == 0
  {
    if a < b {
      ZeroPersists(a, b - 1);
      TenTimesZero(Power10(b - 1));
    }
  }

  lemma BigPowers()
    ensures Wrapped(63) == 0x8000_0000_0000_0000 && Wrapped(64) == 0
  {
    assert Power10(10) == 10_000_000_000;
    assert Power10(20) == 100_000_000_000_000_000_000;
    assert Power10(30) == 1_000_000_000_000_000_000_000_000_000_000;
    assert Power10(40) == 10_000_000_000_000_000_000_000_000_000_000_000_000_000;
    assert Power10(50) == 100_000_000_000_000_000_000_000_000_000_000_000_000_000_000_000_000;
    assert Power10(60) == 1_000_000_000_000_000_000_000_000_000_000_000_000_000_000_000_000_000_000_000_000;
    assert Power10(63) == 1_000_000_000_000_000_000_000_000_000_000_000_000_000_000_000_000_000_000_000_000_000;
    assert Power10(64) == 10_000_000_000_000_000_000_000_000_000_000_000_000_000_000_000_000_000_000_000_000_000;
  }

  lemma WrappedIsZeroIff(n: nat)
    ensures Wrapped(n) == 0 <==> n >= 64
  {
    BigPowers();
    if n >= 64 {
      ZeroPersists(64, n);
    } else if Wrapped(n) == 0 {
      ZeroPersists(n, 63);
    }
  }

  lemma TenTimesAligned(x: nat)
    requires x % 0x2_0000_0000 == 0
    ensures 10 * x % 0x2_0000_0000 == 0
  {
    assert 10 * x == 0x2_0000_0000 * (10 * (x / 0x2_0000_0000));
  }

  lemma WrappedAligned(x: nat)
    requires x % 0x2_0000_0000 == 0
    ensures (x % 0x1_0000_0000_0000_0000) % 0x2_0000_0000 == 0
  {
    var high, low := x / 0x1_0000_0000_0000_0000, x % 0x1_0000_0000_0000_0000;
    assert low == 0x2_0000_0000 * (x / 0x2_0000_0000 - 0x8000_0000 * high);
  }

  /** From 10^33 on, every power of ten is a multiple of 2^33. */
  lemma {:induction false} HighPowersAreAligned(n: nat)
    requires n >= 33
    ensures Power10(n) % 0x2_0000_0000 == 0
  {
    if n == 33 {
      LowPowers();
      assert Power10(33) == 10 * Power10(32);
    } else {
      HighPowersAreAligned(n - 1);
      TenTimesAligned(Power10(n - 1));
    }
  }

  lemma LowPowers()
    ensures Power10(20) == 100_000_000_000_000_000_000 && Power10(21) == 1_000_000_000_000_000_000_000
    ensures Power10(22) == 10_000_000_000_000_000_000_000 && Power10(23) == 100_000_000_000_000_000_000_000
    ensures Power10(24) == 1_000_000_000_000_000_000_000_000 && Power10(25) == 10_000_000_000_000_000_000_000_000
    ensures Power10(26) == 100_000_000_000_000_000_000_000_000 && Power10(27) == 1_000_000_000_000_000_000_000_000_000
    ensures Power10(28) == 10_000_000_000_000_000_000_000_000_000
    ensures Power10(29) == 100_000_000_000_000_000_000_000_000_000
    ensures Power10(30) == 1_000_000_000_000_000_000_000_000_000_000
    ensures Power10(31) == 10_000_000_000_000_000_000_000_000_000_000
    ensures Power10(32) == 100_000_000_000_000_000_000_000_000_000_000
  {
    assert Power10(10) == 10_000_000_000;
    assert Power10(15) == 1_000_000_000_000_000;
  }

  /** A wrapped power that is not zero is large: no u64 divided by it exceeds a u32. */
  lemma WrappedIsLarge(n: nat)
    requires 20 <= n < 64
    ensures Wrapped(n) >= TWO_32
  {
    if n >= 33 {
      WrappedIsZeroIff(n);
      HighPowersAreAligned(n);
      WrappedAligned(Power10(n));
    } else {
      LowPowers();
      if n <= 26 {
        assert n == 20 || n == 21 || n == 22 || n == 23 || n == 24 || n == 25 || n == 26;
      } else {
        assert n == 27 || n == 28 || n == 29 || n == 30 || n == 31 || n == 32;
      }
    }
  }

  // ---------------------------------------------------------------------
  // When the conversion is exact
  // ---------------------------------------------------------------------

  /** The fraction digits really are that many digits. */
  ghost predicate WellFormed(n: Number) {
    n.integer >= 0 && n.fraction < Power10(n.fractionLength)
  }

  /** One hundred times the value of the number, rounded down. */
  ghost function Exact(n: Number): nat
    requires WellFormed(n)
  {
    n.integer * 100 + Div(n.fraction * 100, Power10(n.fractionLength))
  }

  lemma DivisorFits(n: Number)
    requires n.fractionLength <= MAX_FRACTION_LENGTH
    ensures Divisor(n) == Power10(ExtraDigits(n)) > 0
  {
    NineteenZerosFit();
    Power10Monotone(ExtraDigits(n), 19);
  }

  /** The hundredths the source takes from the fraction digits. */
  ghost function Hundredths(n: Number): nat {
    Div(n.fraction, Power10(ExtraDigits(n)))
  }

  /** With two or more digits the hundredths are right; a single digit is not scaled. */
  lemma HundredthsExact(n: Number)
    requires WellFormed(n)
    ensures Hundredths(n) < 100
    ensures n.fractionLength < 2 ==> Hundredths(n) == n.fraction
    ensures Exact(n) == n.integer * 100 + (if n.fractionLength == 1 then 10 * n.fraction else Hundredths(n))
  {
    if n.fractionLength >= 2 {
      var p := Power10(n.fractionLength - 2);
      assert Power10(n.fractionLength) == 100 * p by {
        assert Power10(n.fractionLength) == 10 * Power10(n.fractionLength - 1);
      }
      CancelHundred(n.fraction, p);
    } else if n.fractionLength == 1 {
      assert Power10(1) == 10 && Power10(0) == 1;
    } else {
      assert Power10(0) == 1;
    }
  }

  lemma CancelHundred(fraction: nat, p: nat)
    requires p > 0
    ensures Div(fraction * 100, 100 * p) == Div(fraction, p)
    ensures fraction < 100 * p ==> Div(fraction, p) < 100
  {
    var q := Div(fraction, p);
    DivTimes(fraction, p);
    assert (100 * p) * q == 100 * (p * q);
    DivAtLeast(fraction * 100, 100 * p, q);
    DivAtMost(fraction * 100, 100 * p, q);
    if fraction < 100 * p {
      DivAtMost(fraction, p, 99);
    }
  }

  lemma TruncateProduct(integer: nat)
    ensures TruncateU32(TruncateU32(integer) * 100) == TruncateU32(integer * 100)
  {
    var high := integer / 0x1_0000_0000;
    assert integer * 100 == 0x1_0000_0000 * (100 * high) + TruncateU32(integer) * 100;
  }

  lemma TruncateSum(a: nat, b: nat)
    ensures TruncateU32(TruncateU32(a) + TruncateU32(b)) == TruncateU32(a + b)
  {
  }

  lemma CombineTruncatesOnce(integer: nat, hundredths: nat)
    ensures Combine(integer, hundredths) == TruncateU32(integer * 100 + hundredths)
  {
    TruncateProduct(integer);
    TruncateSum(integer * 100, hundredths);
  }

  /** Whatever the integer part, the conversion is the unbounded sum truncated once. */
  lemma ToCentsTruncates(n: Number)
    requires WellFormed(n) && n.fractionLength <= MAX_FRACTION_LENGTH
    ensures ToCents(n) == Price(TruncateU32(n.integer * 100 + Hundredths(n)))
  {
    DivisorFits(n);
    HundredthsExact(n);
    CombineTruncatesOnce(n.integer, Hundredths(n));
  }

  /** Without sign or exponent, for every number the three truncations on the way act as one at the
      end; the fraction is divided by the power of ten as it wraps around. */
  lemma CentsModulo(n: Number)
    requires n.integer >= 0 && n.fractionLength < PANIC_LENGTH
    ensures var places := if n.fractionLength < 2 then 0 else n.fractionLength - 2;
            var power := Power10(places) % 0x1_0000_0000_0000_0000;
            && power > 0
            && ToCents(n) == Price((n.integer * 100 + n.fraction / power) % 0x1_0000_0000)
  {
    PanicsIff(n);
    CombineTruncatesOnce(n.integer, Div(n.fraction, Divisor(n)));
  }

  lemma TruncationIsExact(sum: nat, exact: nat)
    requires sum <= exact
    ensures TruncateU32(sum) == exact <==> exact < TWO_32 && sum == exact
  {
  }

  /** A well-formed fraction of more than 21 digits has no hundredths: it starts with zeros. */
  lemma LongFractionIsSmall(n: Number)
    requires WellFormed(n) && n.fractionLength > MAX_FRACTION_LENGTH
    ensures Exact(n) == n.integer * 100 && Hundredths(n) == 0
  {
    LowPowers();
    Power10Monotone(20, ExtraDigits(n));
    HundredthsExact(n);
    DivAtMost(n.fraction, Power10(ExtraDigits(n)), 0);
  }

  lemma AddShows(a: u32, b: u32)
    ensures AddU32(a, b) == a <==> b == 0
  {
  }

  lemma TailShows(integer: nat, tail: nat)
    ensures Combine(integer, tail) == TruncateU32(integer * 100) <==> TruncateU32(tail) == 0
  {
    TruncateProduct(integer);
    AddShows(TruncateU32(integer * 100), TruncateU32(tail));
  }

  lemma TailVanishes(integer: nat, tail: nat)
    ensures Combine(integer, tail) == integer * 100 <==> integer * 100 < TWO_32 && TruncateU32(tail) == 0
  {
    TailShows(integer, tail);
    if integer * 100 >= TWO_32 {
      assert Combine(integer, tail) < TWO_32;
    }
  }

  /** No cent comes out of a wrapped division: the fraction is short enough for its power of ten
      to fit, or it is below what the power wraps around to. */
  ghost predicate NoStrayCents(n: Number) {
    n.fractionLength > MAX_FRACTION_LENGTH ==> n.fractionLength < PANIC_LENGTH && n.fraction < Divisor(n)
  }

  /** The fraction length from which on the wrapped power of ten is zero. */
  const PANIC_LENGTH: nat := 66

  /** The division by zero happens to every number of 66 or more fraction digits, and to no
      other. */
  lemma PanicsIff(n: Number)
    ensures ToCents(n).Panics? <==> n.fractionLength >= PANIC_LENGTH
  {
    WrappedIsZeroIff(ExtraDigits(n));
  }

  lemma StrayCents(n: Number)
    requires MAX_FRACTION_LENGTH < n.fractionLength < PANIC_LENGTH
    ensures Divisor(n) > 0
    ensures TruncateU32(Div(n.fraction, Divisor(n))) == 0 <==> n.fraction < Divisor(n)
  {
    WrappedIsLarge(ExtraDigits(n));
    QuotientBy(n.fraction, Divisor(n));
  }

  lemma QuotientBy(fraction: u64, divisor: u64)
    requires divisor >= TWO_32
    ensures TruncateU32(Div(fraction, divisor)) == 0 <==> fraction < divisor
  {
    var q := Div(fraction, divisor);
    DivTimes(fraction, divisor);
    if fraction < divisor {
      DivAtMost(fraction, divisor, 0);
    } else {
      DivAtLeast(fraction, divisor, 1);
      MulMonotone(q, TWO_32, divisor);
    }
  }

  /** What a caller can check of a number before converting it: one hundred times its value fits
      in a u32, its fraction is not a single non-zero digit, and no stray cents come out of a
      fraction of more than 21 digits. */
  ghost predicate Convertible(n: Number)
    requires WellFormed(n)
  {
    && Exact(n) < TWO_32
    && (n.fractionLength == 1 ==> n.fraction == 0)
    && NoStrayCents(n)
  }

  /** The result is exactly one hundred times the value, rounded down, for the convertible
      numbers and for no others. */
  lemma CentsExactIff(n: Number)
    requires WellFormed(n)
    ensures ToCents(n).Price? && ToCents(n).cents == Exact(n) <==> Convertible(n)
  {
    PanicsIff(n);
    if n.fractionLength <= MAX_FRACTION_LENGTH {
      ShortCentsExactIff(n);
    } else if n.fractionLength < PANIC_LENGTH {
      LongFractionIsSmall(n);
      StrayCents(n);
      TailVanishes(n.integer, Div(n.fraction, Divisor(n)));
    }
  }

  lemma ShortCentsExactIff(n: Number)
    requires WellFormed(n) && n.fractionLength <= MAX_FRACTION_LENGTH
    ensures ToCents(n).Price? && ToCents(n).cents == Exact(n)
       <==> Exact(n) < TWO_32 && (n.fractionLength == 1 ==> n.fraction == 0)
  {
    ToCentsTruncates(n);
    HundredthsExact(n);
    TruncationIsExact(n.integer * 100 + Hundredths(n), Exact(n));
  }

  /** 155.2 comes out as 155.02. */
  lemma OneDigitIsNotScaled()
    ensures ToCents(Number(155, 2, 1)) == Price(15502)
    ensures WellFormed(Number(155, 2, 1)) && Exact(Number(155, 2, 1)) == 15520
  {
    var n := Number(155, 2, 1);
    assert Power10(1) == 10;
    HundredthsExact(n);
    ToCentsTruncates(n);
  }

  lemma TwoDigits(n: Number)
    requires n.integer >= 0 && n.fraction < 100 && n.fractionLength == 2
    ensures WellFormed(n) && ToCents(n) == Price(TruncateU32(n.integer * 100 + n.fraction))
  {
    assert Power10(2) == 100;
    assert Hundredths(n) == n.fraction by { assert Power10(0) == 1; }
    ToCentsTruncates(n);
  }

  /** The number cut off after its second fraction digit. */
  function FirstTwoDigits(n: Number): Number
    requires n.fractionLength >= 2
  {
    Number(n.integer, Div(n.fraction, Power10(n.fractionLength - 2)), 2)
  }

  /** Digits past the second do not matter exactly when they leave no stray cents, in particular
      up to 21 of them. */
  lemma LaterDigitsAreIgnoredIff(n: Number)
    requires WellFormed(n) && n.fractionLength >= 2
    ensures ToCents(n) == ToCents(FirstTwoDigits(n)) <==> NoStrayCents(n)
  {
    HundredthsExact(n);
    TwoDigits(FirstTwoDigits(n));
    PanicsIff(n);
    if n.fractionLength <= MAX_FRACTION_LENGTH {
      ToCentsTruncates(n);
    } else if n.fractionLength < PANIC_LENGTH {
      LongFractionIsSmall(n);
      StrayCents(n);
      TailShows(n.integer, Div(n.fraction, Divisor(n)));
    }
  }

  /** Past 21 digits the power of ten wraps around: 0.0007766279631452241920 counts as a cent. */
  lemma LongFractionIsWrong()
    ensures var n := Number(0, 7_766_279_631_452_241_920, 22);
            WellFormed(n) && Exact(n) == 0 && ToCents(n) == Price(1)
  {
    var n := Number(0, 7_766_279_631_452_241_920, 22);
    assert Divisor(n) == 7_766_279_631_452_241_920 && WellFormed(n) by { LowPowers(); }
    LongFractionIsSmall(n);
    assert Div(n.fraction, Divisor(n)) == 1;
  }

  /** Writing a u32 with two fraction digits and reading it back returns it. */
  function Render(cents: u32): Number {
    Number(cents / 100, cents % 100, 2)
  }

  lemma SplitHundred(cents: u32)
    ensures TruncateU32(cents / 100 * 100 + cents % 100) == cents
  {
  }

  lemma RenderRoundTrip(cents: u32)
    ensures WellFormed(Render(cents)) && ToCents(Render(cents)) == Price(cents)
  {
    SplitHundred(cents);
    TwoDigits(Render(cents));
  }
}
