/** Schedule resolution: what BondPricer.setSettlementDate derives from the bond
    terms and a settlement date, one helper per derived field, composed in the
    order the Java method assigns them. */
module Schedule {
  import opened Dates
  import opened Bonds

  const Frequency: int := 2
  const DaysInYear: int := 365
  const AverageDaysInYear: real := 365.25

  /** d is one of the two coupon anniversaries resolved to d's own year. */
  predicate IsCouponDate(t: BondDetails, d: Date)
    requires ValidTerms(t)
  {
    d == t.firstCouponDate.AtYear(d.year) || d == t.secondCouponDate.AtYear(d.year)
  }

  /** getNextCouponDate */
  function NextCouponDate(t: BondDetails, settlementDate: Date): (next: Date)
    requires ValidTerms(t)
    ensures ValidDate(next) && IsCouponDate(t, next)
  {
    var y := settlementDate.year;
    if Before(settlementDate, t.firstCouponDate.AtYear(y)) then t.firstCouponDate.AtYear(y)
    else if Before(settlementDate, t.secondCouponDate.AtYear(y)) then t.secondCouponDate.AtYear(y)
    else t.firstCouponDate.AtYear(y + 1)
  }

  /** getLastCouponDate */
  function LastCouponDate(t: BondDetails, nextCouponDate: Date): (last: Date)
    requires ValidTerms(t)
    ensures ValidDate(last) && IsCouponDate(t, last)
  {
    var y := nextCouponDate.year;
    if nextCouponDate == t.firstCouponDate.AtYear(y) then t.secondCouponDate.AtYear(y - 1)
    else t.firstCouponDate.AtYear(y)
  }

  /** getBooksCloseDate */
  function BooksCloseDate(t: BondDetails, nextCouponDate: Date): (booksClose: Date)
    requires ValidTerms(t)
    ensures ValidDate(booksClose) && booksClose.year == nextCouponDate.year
  {
    var y := nextCouponDate.year;
    if nextCouponDate == t.firstCouponDate.AtYear(y) then t.firstBooksCloseDate.AtYear(y)
    else t.secondBooksCloseDate.AtYear(y)
  }

  /** Math.round on a double: the nearest integer, halves rounded up. */
  function RoundHalfUp(x: real): (n: int)
    ensures n as real - 0.5 <= x < n as real + 0.5
  {
    (x + 0.5).Floor
  }

  /** calculateRemainingCoupons: days to maturity over the average half-year. */
  function RemainingCoupons(t: BondDetails, nextCouponDate: Date): int
    requires ValidTerms(t) && ValidDate(nextCouponDate)
  {
    RoundHalfUp(DaysBetween(nextCouponDate, t.maturityDate) as real
                / (AverageDaysInYear / Frequency as real))
  }

  /** isCumEx */
  function IsCumEx(settlementDate: Date, booksCloseDate: Date): bool {
    Before(settlementDate, booksCloseDate)
  }

  /** calculateDaysAccrued */
  function DaysAccrued(cumex: bool, lastCouponDate: Date, nextCouponDate: Date,
                       settlementDate: Date): int
    requires ValidDate(lastCouponDate) && ValidDate(nextCouponDate) && ValidDate(settlementDate)
  {
    if cumex then DaysBetween(lastCouponDate, settlementDate)
    else DaysBetween(nextCouponDate, settlementDate)
  }

  /** basicCouponAmount, set in the constructor: one of the two equal coupons. */
  function BasicCouponAmount(couponRate: real): real {
    couponRate / Frequency as real
  }

  /** calculateCouponPayable */
  function CouponPayable(basicCouponAmount: real, cumex: bool): real {
    if cumex then basicCouponAmount else 0.0
  }

  /** calculateAccruedInterest */
  function AccruedInterest(daysAccrued: int, couponRate: real): real {
    daysAccrued as real * couponRate / DaysInYear as real
  }

  /** The fields setSettlementDate assigns. */
  datatype PricingState = PricingState(
    settlementDate: Date,
    nextCouponDate: Date,
    booksCloseDate: Date,
    lastCouponDate: Date,
    numberRemainingCoupons: int,
    cumexFlag: bool,
    daysAccrued: int,
    couponPayable: real,
    accruedInterest: real)

  /** setSettlementDate as a value: each field is computed from the ones before it,
      in the order of the Java method. */
  function Resolve(t: BondDetails, settlementDate: Date): (st: PricingState)
    requires ValidTerms(t) && ValidDate(settlementDate)
    ensures ValidDate(st.nextCouponDate) && ValidDate(st.booksCloseDate)
    ensures ValidDate(st.lastCouponDate)
  {
    var next := NextCouponDate(t, settlementDate);
    var booksClose := BooksCloseDate(t, next);
    var last := LastCouponDate(t, next);
    var remaining := RemainingCoupons(t, next);
    var cumex := IsCumEx(settlementDate, booksClose);
    var days := DaysAccrued(cumex, last, next, settlementDate);
    var payable := CouponPayable(BasicCouponAmount(t.couponRate), cumex);
    var accrued := AccruedInterest(days, t.couponRate);
    PricingState(settlementDate, next, booksClose, last, remaining, cumex, days, payable, accrued)
  }

  // ---------------------------------------------------------------------------
  // Properties of the resolved schedule

  /** The next coupon is a coupon date strictly after settlement, at most one
      year later. */
  lemma NextCouponAfterSettlement(t: BondDetails, s: Date)
    requires WellFormed(t) && ValidDate(s)
    ensures Before(s, NextCouponDate(t, s)) && IsCouponDate(t, NextCouponDate(t, s))
    ensures NextCouponDate(t, s).year in {s.year, s.year + 1}
  {
  }

  /** No coupon date after settlement comes before the next coupon: it is the
      earliest one. */
  lemma NextCouponIsEarliest(t: BondDetails, s: Date, d: Date)
    requires WellFormed(t) && ValidDate(s) && IsCouponDate(t, d) && Before(s, d)
    ensures NextCouponDate(t, s) == d || Before(NextCouponDate(t, s), d)
  {
  }

  /** isBefore is strict, so settling on a coupon date rolls to the following coupon. */
  lemma SettlementOnCouponRollsForward(t: BondDetails, y: int)
    requires WellFormed(t)
    ensures NextCouponDate(t, t.firstCouponDate.AtYear(y)) == t.secondCouponDate.AtYear(y)
    ensures NextCouponDate(t, t.secondCouponDate.AtYear(y)) == t.firstCouponDate.AtYear(y + 1)
  {
  }

  /** The last and next coupon bracket settlement: last <= settlement < next. */
  lemma CouponPeriodBracketsSettlement(t: BondDetails, s: Date)
    requires WellFormed(t) && ValidDate(s)
    ensures var next := NextCouponDate(t, s);
            var last := LastCouponDate(t, next);
            !Before(s, last) && Before(s, next) && Before(last, next)
  {
  }

  /** For any terms the Java types allow, the last coupon differs from the next one, so
      the coupon period that calculateBrokenPeriod divides by is never empty. */
  lemma ResolvedPeriodNonEmpty(t: BondDetails, s: Date)
    requires ValidTerms(t) && ValidDate(s)
    ensures var next := NextCouponDate(t, s);
            LastCouponDate(t, next) != next && DaysBetween(LastCouponDate(t, next), next) != 0
  {
    var next := NextCouponDate(t, s);
    EpochDayOrder(LastCouponDate(t, next), next);
  }

  /** No coupon date lies strictly between the last and the next coupon: they are
      consecutive coupons of the schedule. */
  lemma NoCouponInsidePeriod(t: BondDetails, s: Date, d: Date)
    requires WellFormed(t) && ValidDate(s) && IsCouponDate(t, d)
    ensures var next := NextCouponDate(t, s);
            var last := LastCouponDate(t, next);
            !(Before(last, d) && Before(d, next))
  {
  }

  /** Settlement dates in the same coupon period resolve to the same coupons. */
  lemma SamePeriodSameCoupons(t: BondDetails, s1: Date, s2: Date)
    requires WellFormed(t) && ValidDate(s1) && ValidDate(s2)
    requires var next := NextCouponDate(t, s1);
             !Before(s2, LastCouponDate(t, next)) && Before(s2, next)
    ensures NextCouponDate(t, s2) == NextCouponDate(t, s1)
    ensures LastCouponDate(t, NextCouponDate(t, s2)) == LastCouponDate(t, NextCouponDate(t, s1))
  {
    var n1, n2 := NextCouponDate(t, s1), NextCouponDate(t, s2);
    var l1 := LastCouponDate(t, n1);
    NextCouponAfterSettlement(t, s2);
    NextCouponIsEarliest(t, s2, n1);
    NoCouponInsidePeriod(t, s1, n2);
    BeforeTotal(l1, s2, n2);
    BeforeTotal(n2, n1, n2);
  }

  /** The books-close date belongs to the next coupon: it falls inside the coupon
      period, after the last coupon and before the next one, in the next coupon's year. */
  lemma BooksCloseInsidePeriod(t: BondDetails, s: Date)
    requires WellFormed(t) && ValidDate(s)
    ensures var next := NextCouponDate(t, s);
            var last := LastCouponDate(t, next);
            var booksClose := BooksCloseDate(t, next);
            Before(last, booksClose) && Before(booksClose, next)
            && booksClose.year == next.year
  {
  }

  /** Cum iff settlement is strictly before books close; ex means settlement falls in
      [books close, next coupon). The coupon payable is half the annual rate when cum
      and exactly zero when ex. */
  lemma CumExAndCouponPayable(t: BondDetails, s: Date)
    requires WellFormed(t) && ValidDate(s)
    ensures var st := Resolve(t, s);
            (st.cumexFlag <==> Before(s, st.booksCloseDate))
            && (!st.cumexFlag ==> !Before(s, st.booksCloseDate) && Before(s, st.nextCouponDate))
            && (st.cumexFlag ==> st.couponPayable == t.couponRate / 2.0)
            && (!st.cumexFlag ==> st.couponPayable == 0.0)
  {
    NextCouponAfterSettlement(t, s);
  }

  /** When cum, the days accrued count from the last coupon and are at least zero
      and less than the period; when ex they count to the next coupon and are
      negative, no further back than the books-close date. */
  lemma DaysAccruedBounds(t: BondDetails, s: Date)
    requires WellFormed(t) && ValidDate(s)
    ensures var st := Resolve(t, s);
            var last, next, bc := st.lastCouponDate, st.nextCouponDate, st.booksCloseDate;
            (st.cumexFlag ==> st.daysAccrued == DaysBetween(last, s)
                              && 0 <= st.daysAccrued < DaysBetween(last, next))
            && (!st.cumexFlag ==> st.daysAccrued == DaysBetween(next, s)
                                  && -DaysBetween(bc, next) <= st.daysAccrued < 0)
  {
    var st := Resolve(t, s);
    CouponPeriodBracketsSettlement(t, s);
    BooksCloseInsidePeriod(t, s);
    EpochDayOrder(st.lastCouponDate, s);
    EpochDayOrder(s, st.nextCouponDate);
    EpochDayOrder(st.booksCloseDate, s);
  }

  /** Accrued interest (days accrued times the coupon rate over 365) is owed to the
      seller when cum and refunded by the seller when ex. */
  lemma AccruedInterestSign(t: BondDetails, s: Date)
    requires WellFormed(t) && ValidDate(s) && t.couponRate > 0.0
    ensures var st := Resolve(t, s);
            (st.cumexFlag ==> st.accruedInterest >= 0.0)
            && (!st.cumexFlag ==> st.accruedInterest < 0.0)
  {
    var st := Resolve(t, s);
    DaysAccruedBounds(t, s);
    AccruedInterestFollowsDays(st.cumexFlag, st.daysAccrued, t.couponRate);
  }

  lemma AccruedInterestFollowsDays(cumex: bool, days: int, couponRate: real)
    requires couponRate > 0.0
    requires cumex ==> days >= 0
    requires !cumex ==> days < 0
    ensures AccruedInterest(days, couponRate) * 365.0 == days as real * couponRate
    ensures cumex ==> AccruedInterest(days, couponRate) >= 0.0
    ensures !cumex ==> AccruedInterest(days, couponRate) < 0.0
  {
  }

  /** Rounding days / 182.625 to the nearest integer is floor((16 * days + 1461) / 2922),
      i.e. floor(8 * days / 1461 + 1/2); no coupon remains after a final coupon. */
  lemma RemainingCouponsClosedForm(t: BondDetails, next: Date)
    requires ValidTerms(t) && ValidDate(next)
    ensures var days := DaysBetween(next, t.maturityDate);
            RemainingCoupons(t, next) == (16 * days + 1461) / 2922
            && (days >= 0 ==> RemainingCoupons(t, next) >= 0)
            && (next == t.maturityDate ==> RemainingCoupons(t, next) == 0)
  {
    var days := DaysBetween(next, t.maturityDate);
    var n := 16 * days + 1461;
    assert days as real / (AverageDaysInYear / Frequency as real) + 0.5 == n as real / 2922.0;
    FloorOfQuotient(n, 2922);
  }

  lemma FloorOfQuotient(n: int, k: int)
    requires k > 0
    ensures (n as real / k as real).Floor == n / k
  {
    var q, r := n / k, n % k;
    assert n == q * k + r && 0 <= r < k;
    assert n as real / k as real == q as real + r as real / k as real;
    assert 0.0 <= r as real / k as real < 1.0;
  }
}
