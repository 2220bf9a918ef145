/** `_clean_amount`: validating and normalising one money amount. */
module Amounts {
  import opened Wrappers

  /** 1e8, the largest accepted magnitude, in cents. */
  const MaxAmount: int := 10_000_000_000

  /**
   * A caller-supplied amount as float() sees it: a number, held in whole cents,
   * or a value float() rejects, with its Python truthiness.
   */
  datatype Raw = Num(cents: int) | NotANumber(truthy: bool)

  function Abs(v: int): nat {
    if v < 0 then -v else v
  }

  /** An amount as the store keeps it. */
  predicate AmountOk(v: int) {
    0 <= v <= MaxAmount
  }

  /**
   * `_clean_amount`: None passes through; a value float() rejects raises InvalidAmount;
   * a magnitude above 1e8 raises AmountTooLarge (checked before the sign is dropped);
   * otherwise the magnitude, rounded to cents.
   */
  function CleanAmount(x: Option<Raw>): (r: Result<Option<int>, Error>)
    ensures x.None? <==> r == Success(None)
    ensures r.Failure? ==> x.Some? && (if x.value.NotANumber? then r.error == InvalidAmount else r.error == AmountTooLarge)
    ensures x.Some? && x.value.Num? ==> (r.Success? <==> Abs(x.value.cents) <= MaxAmount)
    ensures r.Success? && r.value.Some? ==> AmountOk(r.value.value) && x.value.Num? && Abs(x.value.cents) == r.value.value
  {
    match x
    case None => Success(None)
    case Some(NotANumber(_)) => Failure(InvalidAmount)
    case Some(Num(v)) => if Abs(v) > MaxAmount then Failure(AmountTooLarge) else Success(Some(Abs(v)))
  }

  /** Cleaning an already cleaned amount returns it unchanged. */
  lemma CleanAmountIdempotent(x: Option<Raw>)
    requires CleanAmount(x).Success? && CleanAmount(x).value.Some?
    ensures CleanAmount(Some(Num(CleanAmount(x).value.value))) == CleanAmount(x)
  {
  }

  /** A sign is dropped, and the bound is checked before it is: -1e9 is refused as well as 1e9. */
  lemma CleanAmountExamples()
    ensures CleanAmount(Some(Num(-5000))) == Success(Some(5000))
    ensures CleanAmount(Some(Num(100_000_000_000))) == Failure(AmountTooLarge)
    ensures CleanAmount(Some(Num(-100_000_000_000))) == Failure(AmountTooLarge)
    ensures CleanAmount(Some(NotANumber(true))) == Failure(InvalidAmount)
  {
  }

  /** Python's `x or 0.0` on an optional amount: None and falsy values become 0. */
  function OrZero(x: Option<Raw>): (r: Raw)
    ensures r.Num? && r.cents == 0
        <==> x.None? || (x.value.Num? && x.value.cents == 0) || (x.value.NotANumber? && !x.value.truthy)
    ensures x.Some? && (x.value.Num? || x.value.truthy) ==> r == x.value
    ensures x.None? || (x.value.NotANumber? && !x.value.truthy) ==> r == Num(0)
  {
    match x
    case None => Num(0)
    case Some(NotANumber(truthy)) => if truthy then NotANumber(truthy) else Num(0)
    case Some(Num(v)) => Num(v)
  }
}
