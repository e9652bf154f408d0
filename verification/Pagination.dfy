/**
 * Pagination: the page count is a float64 division and ceiling, the offset an `int` product.
 * Floating point enters only through `round`, the rounding of float64 operations; the lemmas use
 * two facts about it from section 4.3.1 of IEEE 754-2019, round to nearest.
 */
module Pagination {
  import Decimal
  import GoInt

  /** The largest n such that every integer up to n is a float64. */
  const EXACT: int := 0x20_0000_0000_0000

  const MAX_SIZE := 100
  const DEFAULT_SIZE := 10

  function Abs(x: real): real {
    if x < 0.0 then -x else x
  }

  function Ceil(x: real): int {
    -(-x).Floor
  }

  predicate Exactly(round: real -> real, n: int) {
    round(n as real) == n as real
  }

  /**
   * Integers up to 2^53 are representable, so they round to themselves; any other result between
   * 2^-53 and 2^53 is off by at most half a unit in the last place.
   */
  ghost predicate RoundsToNearest(round: real -> real) {
    && (forall n: int :: -EXACT <= n <= EXACT ==> Exactly(round, n))
    && (forall x: real :: 1.0 / EXACT as real <= x <= EXACT as real ==> Abs(round(x) - x) <= x / EXACT as real)
  }

  /** int(math.Ceil(float64(total) / float64(size))) */
  function FloatCeil(round: real -> real, total: int, size: int): int
    requires round(size as real) != 0.0
  {
    Ceil(round(round(total as real) / round(size as real)))
  }

  function PageCountOf(total: nat, size: nat): nat
    requires size >= 1
  {
    (total + size - 1) / size
  }

  function EffectivePage(text: string): GoInt.Int {
    var page := Decimal.Atoi(text).0;
    if page == 0 then 1 else page
  }

  function EffectiveSize(text: string): (size: int)
    ensures 1 <= size <= MAX_SIZE
  {
    var size := Decimal.Atoi(text).0;
    if size > MAX_SIZE then MAX_SIZE else if size <= 0 then DEFAULT_SIZE else size
  }

  function OffsetOf(page: GoInt.Int, size: int): GoInt.Int {
    GoInt.Wrap(GoInt.Wrap(page - 1) * size)
  }

  /** From the query text: sizes 1 to 100 as written, larger ones 100, anything else 10. */
  lemma SizeFromText(n: GoInt.Int, text: string)
    ensures EffectiveSize(Decimal.Format(n)) == if n > 100 then 100 else if n >= 1 then n else 10
    ensures !Decimal.Atoi(text).1 && Decimal.Atoi(text).0 == 0 ==> EffectiveSize(text) == 10
  {
    Decimal.AtoiFormat(n);
  }

  /** From the query text: page n as written, page 1 for zero or text that is no number. */
  lemma PageFromText(n: GoInt.Int, text: string)
    ensures EffectivePage(Decimal.Format(n)) == if n == 0 then 1 else n
    ensures !Decimal.Atoi(text).1 && Decimal.Atoi(text).0 == 0 ==> EffectivePage(text) == 1
  {
    Decimal.AtoiFormat(n);
  }

  lemma ProductIsNat(a: nat, b: nat)
    ensures 0 <= a * b
  {
  }

  lemma OffsetIsProduct(page: GoInt.Int, size: int, product: int)
    requires page >= 1 && product == (page - 1) * size && 0 <= product <= GoInt.MAX
    ensures OffsetOf(page, size) == product
  {
    assert GoInt.Wrap(page - 1) == page - 1;
  }

  /** Page n of the query text starts after the n - 1 pages before it. */
  lemma OffsetFromText(n: GoInt.Int, size: nat)
    requires n >= 1 && 1 <= size <= 100 && (n - 1) * size <= GoInt.MAX
    ensures OffsetOf(EffectivePage(Decimal.Format(n)), size) == (n - 1) * size
  {
    PageFromText(n, "");
    ProductIsNat(n - 1, size);
    OffsetIsProduct(n, size, (n - 1) * size);
  }

  /** Text with anything but digits after an optional sign is no number. */
  lemma NotANumber(text: string, i: nat)
    requires i < |text| && !Decimal.IsDigit(text[i]) && !(i == 0 && (text[0] == '-' || text[0] == '+'))
    ensures Decimal.Atoi(text) == (0, false)
  {
    if text[0] == '-' || text[0] == '+' {
      assert text[1..][i - 1] == text[i];
    }
  }

  class Paginate {
    var page: string
    var pageSize: string
    var offset: GoInt.Int
    var total: GoInt.Int
    var pageCount: int

    constructor (page: string, pageSize: string, total: GoInt.Int)
      ensures this.page == page && this.pageSize == pageSize && this.total == total
    {
      this.page, this.pageSize, this.total := page, pageSize, total;
      offset, pageCount := 0, 0;
    }

    /** Dividing by zero gives no number, whose conversion to `int` is implementation-specific: `converted`. */
    method SetPageCount(round: real -> real, total: GoInt.Int, size: GoInt.Int, converted: int)
      requires RoundsToNearest(round)
      modifies this`total, this`pageCount
      ensures this.total == total
      ensures 0 <= total < EXACT && 1 <= size <= EXACT ==> pageCount == PageCountOf(total, size)
    {
      this.total := total;
      if round(size as real) == 0.0 {
        assert 1 <= size <= EXACT ==> Exactly(round, size);
        pageCount := converted;
      } else {
        pageCount := FloatCeil(round, total, size);
        if 0 <= total < EXACT && 1 <= size <= EXACT {
          FloatCeilIsIntegerCeil(round, total, size);
        }
      }
    }

    /** SetPagination, and the scope that Pagination applies: the offset and the limit of the query. */
    method SetPagination(round: real -> real) returns (skip: GoInt.Int, limit: int)
      requires RoundsToNearest(round)
      modifies this`offset, this`pageCount
      ensures limit == EffectiveSize(pageSize)
      ensures skip == offset == OffsetOf(EffectivePage(page), limit)
      ensures 0 <= total < EXACT ==> pageCount == PageCountOf(total, limit)
    {
      var number: GoInt.Int := Decimal.Atoi(page).0;
      if number == 0 {
        number := 1;
      }
      limit := Decimal.Atoi(pageSize).0;
      if limit > MAX_SIZE {
        limit := MAX_SIZE;
      } else if limit <= 0 {
        limit := DEFAULT_SIZE;
      }
      skip := OffsetOf(number, limit);
      pageCount := CountPages(round, total, limit);
      offset := skip;
    }
  }

  /** The ceiling of the float64 quotient. */
  method CountPages(round: real -> real, total: GoInt.Int, size: int) returns (count: int)
    requires RoundsToNearest(round) && 1 <= size <= EXACT
    ensures 0 <= total < EXACT ==> count == PageCountOf(total, size)
  {
    assert Exactly(round, size);
    count := FloatCeil(round, total, size);
    if 0 <= total < EXACT {
      FloatCeilIsIntegerCeil(round, total, size);
    }
  }

  // ---------- the float ceiling is the integer ceiling ----------

  lemma QuotientBounds(t: int, s: int, k: int)
    requires s >= 1 && (k - 1) * s < t < k * s
    ensures (k - 1) as real + 1.0 / s as real <= t as real / s as real <= k as real - 1.0 / s as real
  {
    var r := s as real;
    assert ((k - 1) * s + 1) as real == (k - 1) as real * r + 1.0;
    assert (k * s - 1) as real == k as real * r - 1.0;
    DivideMonotone((k - 1) as real * r + 1.0, t as real, r);
    DivideMonotone(t as real, k as real * r - 1.0, r);
    assert ((k - 1) as real * r + 1.0) / r == (k - 1) as real + 1.0 / r;
    assert (k as real * r - 1.0) / r == k as real - 1.0 / r;
  }

  lemma DivideMonotone(a: real, b: real, r: real)
    requires r > 0.0 && a <= b
    ensures a / r <= b / r
  {
  }

  lemma RelativeErrorBelowGap(t: int, s: int)
    requires 1 <= t < EXACT && s >= 1
    ensures (t as real / s as real) / EXACT as real < 1.0 / s as real
  {
    var r, e := s as real, EXACT as real;
    assert (t as real / r) / e == (t as real / e) / r;
    assert t as real / e < 1.0;
  }

  lemma CeilBetween(x: real, k: int)
    requires (k - 1) as real < x <= k as real
    ensures Ceil(x) == k
  {
  }

  lemma CeilingBounds(t: nat, s: nat)
    requires s >= 1
    ensures var k := PageCountOf(t, s); (k - 1) * s < t <= k * s
  {
    var k := PageCountOf(t, s);
    assert t + s - 1 == k * s + (t + s - 1) % s;
    assert (k - 1) * s == k * s - s;
  }

  lemma PageCountAtMostTotal(t: nat, s: nat, k: nat)
    requires s >= 1 && (k - 1) * s < t
    ensures k <= t
  {
    if k >= 1 {
      assert (k - 1) * s >= k - 1;
    }
  }

  /** A quotient that is an integer is computed exactly. */
  lemma IntegralQuotient(round: real -> real, k: nat, size: nat)
    requires RoundsToNearest(round) && k <= EXACT && size >= 1
    ensures Ceil(round((k * size) as real / size as real)) == k
  {
    assert (k * size) as real == k as real * size as real;
    assert (k as real * size as real) / size as real == k as real;
    assert Exactly(round, k);
  }

  /** A quotient that is not an integer is at least 1/size away from one, and rounding moves it less. */
  lemma FractionalQuotient(round: real -> real, total: nat, size: nat, k: nat)
    requires RoundsToNearest(round) && total < EXACT && 1 <= size <= EXACT
    requires (k - 1) * size < total < k * size && total >= 1
    ensures Ceil(round(total as real / size as real)) == k
  {
    var q, gap := total as real / size as real, 1.0 / size as real;
    QuotientBounds(total, size, k);
    RelativeErrorBelowGap(total, size);
    DivideMonotone(1.0, total as real, size as real);
    ReciprocalMonotone(size as real, EXACT as real);
    assert Abs(round(q) - q) < gap;
    CeilBetween(round(q), k);
  }

  lemma ReciprocalMonotone(a: real, b: real)
    requires 0.0 < a <= b
    ensures 1.0 / b <= 1.0 / a
  {
  }

  lemma CeilOfQuotient(round: real -> real, total: nat, size: nat, k: nat)
    requires RoundsToNearest(round) && total < EXACT && 1 <= size <= EXACT && k <= total
    requires (k - 1) * size < total <= k * size
    ensures Ceil(round(total as real / size as real)) == k
  {
    var product := k * size;
    if total == product {
      IntegralQuotient(round, k, size);
    } else {
      FractionalQuotient(round, total, size, k);
    }
  }

  /**
   * For every total below 2^53 and every size up to 2^53, rounding cannot carry the quotient over
   * an integer: the float64 ceiling is the exact one.
   */
  lemma FloatCeilIsIntegerCeil(round: real -> real, total: nat, size: nat)
    requires RoundsToNearest(round) && total < EXACT && 1 <= size <= EXACT
    ensures round(size as real) != 0.0
    ensures FloatCeil(round, total, size) == PageCountOf(total, size)
  {
    assert Exactly(round, size) && Exactly(round, total);
    CeilingBounds(total, size);
    PageCountAtMostTotal(total, size, PageCountOf(total, size));
    CeilOfQuotient(round, total, size, PageCountOf(total, size));
  }

  lemma MulStep(a: int, b: int, s: nat)
    ensures a < b ==> (a + 1) * s <= b * s
  {
  }

  // ---------- pages partition the rows ----------

  /** The page shows the row. */
  predicate Shows(page: int, size: int, row: int) {
    (page - 1) * size <= row < (page - 1) * size + size
  }

  lemma ShowsOnce(size: nat, row: nat, page: int)
    requires size >= 1 && Shows(page, size, row)
    ensures page == row / size + 1
  {
    var p := row / size;
    assert row == p * size + row % size;
    MulStep(page - 1, p, size);
    MulStep(p, page - 1, size);
  }

  /** Every row is shown by exactly one of the pages 1..PageCount. */
  lemma EveryRowOnOnePage(total: nat, size: nat, row: nat)
    requires size >= 1 && row < total
    ensures 1 <= row / size + 1 <= PageCountOf(total, size)
    ensures Shows(row / size + 1, size, row)
    ensures forall page :: Shows(page, size, row) ==> page == row / size + 1
  {
    var p, k := row / size, PageCountOf(total, size);
    assert row == p * size + row % size;
    CeilingBounds(total, size);
    MulStep(k - 1, p, size);
    forall page | Shows(page, size, row) ensures page == row / size + 1 {
      ShowsOnce(size, row, page);
    }
  }

  /** Each of the pages 1..PageCount starts at a row, and its offset is computed without wrap-around. */
  lemma EveryPageShowsARow(total: nat, size: nat, page: GoInt.Int)
    requires 1 <= size <= MAX_SIZE && total <= GoInt.MAX && 1 <= page <= PageCountOf(total, size)
    ensures OffsetOf(page, size) == (page - 1) * size
    ensures 0 <= OffsetOf(page, size) < total && Shows(page, size, OffsetOf(page, size))
  {
    var k := PageCountOf(total, size);
    CeilingBounds(total, size);
    assert (page - 1) * size <= (k - 1) * size;
    assert 0 <= (page - 1) * size;
  }
}
