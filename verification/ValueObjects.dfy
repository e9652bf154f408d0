/** Points and tiers: the immutable value objects of the loyalty domain. */
module ValueObjects {
  import opened Results
  import GoInt

  datatype PointsError = NegativePoints | InsufficientPoints

  datatype Points = Points(value: GoInt.Int) {

    function Add(other: Points): Points {
      Points(GoInt.Wrap(value + other.value))
    }

    function Sub(other: Points): Result<Points, PointsError> {
      if value < other.value then Failure(InsufficientPoints)
      else Success(Points(GoInt.Wrap(value - other.value)))
    }

    predicate IsZero() {
      value == 0
    }
  }

  function NewPoints(v: GoInt.Int): Result<Points, PointsError> {
    if v < 0 then Failure(NegativePoints) else Success(Points(v))
  }

  /** Holds of every value that NewPoints can build. */
  predicate Constructible(p: Points) {
    p.value >= 0
  }

  datatype Tier = Bronze | Silver | Gold

  const SILVER_THRESHOLD: int := 500
  const GOLD_THRESHOLD: int := 2000

  function CalculateTier(balance: Points): Tier {
    if balance.value >= GOLD_THRESHOLD then Gold
    else if balance.value >= SILVER_THRESHOLD then Silver
    else Bronze
  }

  function Rank(tier: Tier): nat {
    match tier
    case Bronze => 0
    case Silver => 1
    case Gold => 2
  }

  /** Silver starts at 500 points and Gold at 2000; more points never mean a lower tier. */
  lemma TierRule(p: Points, q: Points)
    ensures CalculateTier(p) == Bronze <==> p.value < 500
    ensures CalculateTier(p) == Silver <==> 500 <= p.value < 2000
    ensures CalculateTier(p) == Gold <==> p.value >= 2000
    ensures p.value <= q.value ==> Rank(CalculateTier(p)) <= Rank(CalculateTier(q))
  {
  }

  /**
   * Adding two constructible amounts stays constructible exactly when the sum fits an `int`;
   * otherwise the sum wraps to a negative number. Subtraction undoes an addition that fits.
   */
  lemma AddStaysConstructible(p: Points, q: Points)
    requires Constructible(p) && Constructible(q)
    ensures Constructible(p.Add(q)) <==> p.value + q.value <= 9_223_372_036_854_775_807
    ensures Constructible(p.Add(q)) ==> p.Add(q).Sub(q) == Success(p)
  {
  }
}
