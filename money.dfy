/** The value object `Money`: an amount fixed to two decimals, held here as integer cents,
    and an upper-case currency code. Both fields are final, so every operation returns a
    new value. */
module MoneyValues {
  import opened Wrappers
  import opened JavaStrings

  /** A `java.math.BigDecimal`: the number `unscaled × 10^-scale`. */
  datatype Decimal = Decimal(unscaled: int, scale: int)

  function Pow10(n: nat): (p: int)
    ensures p >= 1
    ensures n >= 1 ==> p % 2 == 0
  {
    if n == 0 then 1 else 10 * Pow10(n - 1)
  }

  /** `compareTo(BigDecimal.ZERO) > 0`: the sign of a decimal is the sign of its unscaled value. */
  predicate IsPositive(d: Decimal) {
    d.unscaled > 0
  }

  /** Half-up division of a non-negative `u` by an even `q`: the quotient is within half
      of `q` of the exact one, and a tie goes up. */
  function HalfUpQuotient(u: int, q: int): (c: int)
    requires u >= 0 && q >= 2 && q % 2 == 0
    ensures c >= 0
    ensures -q <= 2 * (u - c * q) < q
  {
    var h := q / 2;
    var c := (u + h) / q;
    var r := (u + h) % q;
    assert u + h == c * q + r && 0 <= r < q;
    assert u - c * q == r - h;
    c
  }

  /** `setScale(2, RoundingMode.HALF_UP)`, as a count of cents: exact when the scale is at
      most 2, otherwise the dropped digits round to the nearest cent and a tie rounds away
      from zero (see the lemma RoundHalfUpBounds). */
  function RoundHalfUpToCents(d: Decimal): (cents: int)
    ensures d.unscaled >= 0 ==> cents >= 0
  {
    if d.scale <= 2 then
      var q := Pow10(2 - d.scale);
      assert d.unscaled >= 0 ==> d.unscaled * q >= 0;
      d.unscaled * q
    else if d.unscaled >= 0 then HalfUpQuotient(d.unscaled, Pow10(d.scale - 2))
    else -HalfUpQuotient(-d.unscaled, Pow10(d.scale - 2))
  }

  /** What half-up rounding to cents means: with `q = 10^(scale - 2)` digits dropped, the
      cents times `q` are within half of `q` of the unscaled value, and on a tie the
      magnitude goes up. */
  lemma RoundHalfUpBounds(d: Decimal)
    ensures d.scale <= 2 ==> RoundHalfUpToCents(d) == d.unscaled * Pow10(2 - d.scale)
    ensures d.scale > 2 && d.unscaled >= 0 ==>
      -Pow10(d.scale - 2) <= 2 * (d.unscaled - RoundHalfUpToCents(d) * Pow10(d.scale - 2)) < Pow10(d.scale - 2)
    ensures d.scale > 2 && d.unscaled < 0 ==>
      -Pow10(d.scale - 2) < 2 * (d.unscaled - RoundHalfUpToCents(d) * Pow10(d.scale - 2)) <= Pow10(d.scale - 2)
  {
    if d.scale > 2 && d.unscaled < 0 {
      var q := Pow10(d.scale - 2);
      var c := HalfUpQuotient(-d.unscaled, q);
      assert RoundHalfUpToCents(d) == -c;
      assert (-c) * q == -(c * q);
      assert d.unscaled - (-c) * q == -(-d.unscaled - c * q);
    }
  }

  /** An amount that already has two decimals is kept exactly. */
  lemma RoundCentsExact(cents: int)
    ensures RoundHalfUpToCents(Decimal(cents, 2)) == cents
  {
  }

  const AmountMessage := "Amount must be positive"
  const CurrencyMessage := "Currency cannot be null or empty"
  const AddCurrencyMessage := "Cannot add different currencies"
  const SubtractCurrencyMessage := "Cannot subtract different currencies"
  const NegativeMessage := "Result cannot be negative"
  const MultiplierMessage := "Multiplier must be positive"

  datatype Money = Money(cents: int, currency: string) {

    /** What every `Money` the factory and the operations build satisfies. */
    predicate Valid() {
      cents >= 0 && currency != [] && IsTrimmed(currency) && ToUpper(currency) == currency
    }

    /** The amount as `getAmount()` returns it: scale 2. */
    function Amount(): Decimal {
      Decimal(cents, 2)
    }

    /** `add`: same currency required; the amounts are summed. */
    function Add(other: Money): (r: Result<Money>)
      ensures r.Success? <==> currency == other.currency
      ensures r.Failure? ==> r.error == IllegalArgument(AddCurrencyMessage)
      ensures r.Success? ==> r.value.cents == cents + other.cents && r.value.currency == currency
      ensures r.Success? && Valid() && other.Valid() ==> r.value.Valid()
    {
      if currency != other.currency then Failure(IllegalArgument(AddCurrencyMessage))
      else Success(Make(Decimal(cents + other.cents, 2), currency))
    }

    /** `subtract`: same currency required, and only a strictly negative difference is
        refused; a zero difference gives a zero amount. */
    function Subtract(other: Money): (r: Result<Money>)
      ensures r.Success? <==> currency == other.currency && cents >= other.cents
      ensures currency != other.currency ==> r == Failure(IllegalArgument(SubtractCurrencyMessage))
      ensures currency == other.currency && cents < other.cents ==>
        r == Failure(IllegalArgument(NegativeMessage))
      ensures r.Success? ==> r.value.cents == cents - other.cents && r.value.currency == currency
      ensures r.Success? && Valid() ==> r.value.Valid()
    {
      if currency != other.currency then Failure(IllegalArgument(SubtractCurrencyMessage))
      else
        var result := Decimal(cents - other.cents, 2);
        if result.unscaled < 0 then Failure(IllegalArgument(NegativeMessage))
        else Success(Make(result, currency))
    }

    /** `multiply`: a positive integer factor scales the amount. */
    function Multiply(multiplier: int): (r: Result<Money>)
      ensures r.Success? <==> multiplier > 0
      ensures r.Failure? ==> r.error == IllegalArgument(MultiplierMessage)
      ensures r.Success? ==> r.value.cents == cents * multiplier && r.value.currency == currency
      ensures r.Success? && Valid() ==> r.value.Valid()
    {
      if multiplier <= 0 then Failure(IllegalArgument(MultiplierMessage))
      else Success(Make(Decimal(cents * multiplier, 2), currency))
    }
  }

  /** The private constructor: rounds the amount to two decimals, keeps the currency. */
  function Make(amount: Decimal, currency: string): (m: Money)
    ensures m.currency == currency
    ensures amount.scale == 2 ==> m.cents == amount.unscaled
  {
    Money(RoundHalfUpToCents(amount), currency)
  }

  /** `Money.of(amount, currency)`: the amount must be positive and the currency not
      blank; the amount is rounded half-up to cents and the currency trimmed and
      upper-cased. The check comes before the rounding, so a positive amount below half a
      cent is accepted and stored as zero. */
  function Of(amount: Option<Decimal>, currency: Option<string>): (r: Result<Money>)
    ensures r.Success? <==>
      amount.Some? && IsPositive(amount.value) && currency.Some? && !IsBlank(currency.value)
    ensures amount.None? || !IsPositive(amount.value) ==> r == Failure(IllegalArgument(AmountMessage))
    ensures amount.Some? && IsPositive(amount.value) && (currency.None? || IsBlank(currency.value)) ==>
      r == Failure(IllegalArgument(CurrencyMessage))
    ensures r.Success? ==>
      r.value.cents == RoundHalfUpToCents(amount.value) &&
      r.value.currency == NormalizeCode(currency.value) &&
      r.value.Valid()
  {
    if amount.None? || !IsPositive(amount.value) then Failure(IllegalArgument(AmountMessage))
    else if currency.None? || IsBlank(currency.value) then Failure(IllegalArgument(CurrencyMessage))
    else
      NormalizeCodeProperties(currency.value);
      Success(Make(amount.value, NormalizeCode(currency.value)))
  }

  /** Two codes give equal money exactly when they agree after trimming and upper-casing,
      so `of(a, "usd")` equals `of(a, " USD ")`. */
  lemma OfCurrencyNormalized(amount: Decimal, c1: string, c2: string)
    requires IsPositive(amount) && !IsBlank(c1) && !IsBlank(c2)
    ensures Of(Some(amount), Some(c1)) == Of(Some(amount), Some(c2)) <==> NormalizeCode(c1) == NormalizeCode(c2)
  {
  }

  lemma OfLowerAndPaddedCodesAgree(amount: Decimal)
    requires IsPositive(amount)
    ensures Of(Some(amount), Some("usd")) == Of(Some(amount), Some(" USD "))
  {
    UsdCodes();
  }

  /** `" USD "` and `"usd"` have the same normal form, `"USD"`. */
  lemma UsdCodes()
    ensures NormalizeCode("usd") == "USD" && NormalizeCode(" USD ") == "USD"
    ensures !IsBlank("usd") && !IsBlank(" USD ")
  {
    var padded := " USD ";
    assert padded[1..] == "USD ";
    assert "USD "[..3] == "USD";
    assert TrimStart("USD ") == "USD ";
    assert TrimStart(padded) == "USD ";
    assert TrimEnd("USD") == "USD";
    assert TrimEnd("USD ") == "USD";
    assert TrimStart("usd") == "usd";
    assert TrimEnd("usd") == "usd";
    assert ToUpper("usd") == "USD" by {
      assert "usd"[1..] == "sd" && "sd"[1..] == "d" && "d"[1..] == [];
    }
    assert ToUpper("USD") == "USD" by {
      assert "USD"[1..] == "SD" && "SD"[1..] == "D" && "D"[1..] == [];
    }
  }

  /** A positive amount below half a cent passes the check and is stored as zero, so the
      only bound `of` guarantees is a non-negative amount. */
  lemma OfCanStoreZero()
    ensures Of(Some(Decimal(4, 3)), Some("USD")) == Success(Money(0, "USD"))
  {
    assert TrimStart("USD") == "USD";
    assert TrimEnd("USD") == "USD";
    assert ToUpper("USD") == "USD" by {
      assert "USD"[1..] == "SD" && "SD"[1..] == "D" && "D"[1..] == [];
    }
    assert Pow10(1) == 10;
  }

  /** A valid money value read back from its amount and currency is itself, when its
      amount is positive. */
  lemma OfValid(m: Money)
    requires m.Valid() && m.cents > 0
    ensures Of(Some(m.Amount()), Some(m.currency)) == Success(m)
  {
    TrimFixpoint(m.currency);
  }

  /** A zero amount cannot be read back: `of` refuses it. */
  lemma OfRefusesZero(m: Money)
    requires m.cents == 0
    ensures Of(Some(m.Amount()), Some(m.currency)) == Failure(IllegalArgument(AmountMessage))
  {
  }

  /** Subtracting what was added gives back the original value. */
  lemma SubtractUndoesAdd(a: Money, b: Money)
    requires a.Add(b).Success? && a.cents >= 0
    ensures a.Add(b).value.Subtract(b) == Success(a)
  {
    RoundCentsExact(a.cents);
  }

  /** Adding is commutative where it is defined. */
  lemma AddCommutes(a: Money, b: Money)
    ensures a.Add(b).Success? <==> b.Add(a).Success?
    ensures a.Add(b).Success? ==> a.Add(b) == b.Add(a)
  {
  }

  /** Multiplying by `n + 1` is multiplying by `n` and adding once more. */
  lemma MultiplyStep(m: Money, n: int)
    requires n > 0
    ensures m.Multiply(n + 1) == m.Multiply(n).value.Add(m)
  {
    assert m.cents * (n + 1) == m.cents * n + m.cents;
  }
}
