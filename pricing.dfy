/** The yield-based part of the JSE Bond Pricing Formula over exact reals:
    discount factor, broken period, broken-period discount factor, all-in and
    clean price. Math.pow with a fractional exponent is a parameter `pow`;
    integer powers are computed. */
module Pricing {
  import opened Dates
  import opened Bonds
  import opened Schedule

  /** calculateDiscountFactor: one half-year of discounting at the annual yield,
      1 / (1 + yield / 200). */
  function DiscountFactor(yld: real): (df: real)
    requires yld != -200.0
    ensures df != 0.0
    ensures df == 1.0 <==> yld == 0.0
    ensures yld > -200.0 ==> 0.0 < df && (df < 1.0 <==> yld > 0.0)
  {
    1.0 / (1.0 + yld / (100 * Frequency) as real)
  }

  /** A higher yield discounts more. */
  lemma DiscountFactorDecreasing(y1: real, y2: real)
    requires -200.0 < y1 < y2
    ensures DiscountFactor(y2) < DiscountFactor(y1)
  {
    var d1, d2 := 1.0 + y1 / 200.0, 1.0 + y2 / 200.0;
    assert 0.0 < d1 < d2;
    assert DiscountFactor(y1) == 1.0 / d1 && DiscountFactor(y2) == 1.0 / d2;
    var q1, q2 := 1.0 / d1, 1.0 / d2;
    assert q1 * d1 == 1.0 && q2 * d2 == 1.0 && q1 > 0.0 && q2 > 0.0;
    assert q1 * q2 * d2 == q1 && q1 * q2 * d1 == q2;
    var gap := (q1 * q2) * (d2 - d1);
    assert q1 - q2 == gap;
    PositiveProduct(q1, q2);
    PositiveProduct(q1 * q2, d2 - d1);
  }

  lemma PositiveProduct(a: real, b: real)
    requires a > 0.0 && b > 0.0
    ensures a * b > 0.0
  {
  }

  /** x to a natural power. */
  function Power(x: real, n: nat): real {
    if n == 0 then 1.0 else x * Power(x, n - 1)
  }

  /** Math.pow(x, n) for a whole exponent n; a negative exponent divides. */
  function IntPower(x: real, n: int): real
    requires x != 0.0 || n >= 0
  {
    if n >= 0 then Power(x, n) else PowerNonZero(x, -n); 1.0 / Power(x, -n)
  }

  lemma {:induction false} PowerNonZero(x: real, n: nat)
    requires x != 0.0
    ensures Power(x, n) != 0.0
  {
    if n > 0 {
      PowerNonZero(x, n - 1);
    }
  }

  lemma {:induction false} PowerBounds(x: real, n: nat)
    requires 0.0 < x
    ensures 0.0 < Power(x, n)
    ensures x < 1.0 ==> Power(x, n) <= 1.0
  {
    if n > 0 {
      PowerBounds(x, n - 1);
      assert Power(x, n) == x * Power(x, n - 1);
    }
  }

  /** calculateBrokenPeriod as written. Before the final period: the part of the
      coupon period still to run, days(settlement -> next) / days(last -> next). In
      the final period: the whole-days quotient of MoneyMarketBrokenPeriodAsWritten. */
  function BrokenPeriod(settlementDate: Date, nextCouponDate: Date, lastCouponDate: Date,
                        maturityDate: Date): real
    requires ValidDate(settlementDate) && ValidDate(nextCouponDate)
    requires ValidDate(lastCouponDate) && ValidDate(maturityDate)
    requires nextCouponDate != maturityDate ==> DaysBetween(lastCouponDate, nextCouponDate) != 0
  {
    if nextCouponDate != maturityDate then
      DaysBetween(settlementDate, nextCouponDate) as real
      / DaysBetween(lastCouponDate, nextCouponDate) as real
    else MoneyMarketBrokenPeriodAsWritten(DaysBetween(settlementDate, nextCouponDate))
  }

  /** calculateBrokenPeriod as intended: the same before the final period, the
      money-market fraction days / 182.5 in it. */
  function BrokenPeriodIntended(settlementDate: Date, nextCouponDate: Date,
                                lastCouponDate: Date, maturityDate: Date): real
    requires ValidDate(settlementDate) && ValidDate(nextCouponDate)
    requires ValidDate(lastCouponDate) && ValidDate(maturityDate)
    requires nextCouponDate != maturityDate ==> DaysBetween(lastCouponDate, nextCouponDate) != 0
  {
    if nextCouponDate != maturityDate
    then BrokenPeriod(settlementDate, nextCouponDate, lastCouponDate, maturityDate)
    else MoneyMarketBrokenPeriod(DaysBetween(settlementDate, nextCouponDate))
  }

  /** The final-period broken period as the formula intends it: days over half a
      365-day year, a day-count fraction. */
  function MoneyMarketBrokenPeriod(days: int): (bp: real)
    ensures bp * 182.5 == days as real
    ensures days > 0 ==> bp > 0.0
  {
    days as real / (DaysInYear as real / Frequency as real)
  }

  /** Java's `/` on integers: the quotient truncated toward zero, so the remainder
      a - q * b has the sign of a and is smaller than b in magnitude. */
  function JavaDiv(a: int, b: int): (q: int)
    requires b > 0
    ensures a >= 0 ==> 0 <= a - q * b < b
    ensures a < 0 ==> -b < a - q * b <= 0
  {
    if a >= 0 then a / b else -((-a) / b)
  }

  /** The final-period broken period as BondPricer.java computes it:
      `days / (DAYSINYEAR / FREQUENCY)` divides two integers, so the quotient is
      truncated before it is widened to double. */
  function MoneyMarketBrokenPeriodAsWritten(days: int): real {
    JavaDiv(days, DaysInYear / Frequency) as real
  }

  /** The as-written final broken period is a whole number of 182-day blocks, so it is
      zero for every settlement less than 182 days before maturity, where the intended
      fraction is positive. */
  lemma MoneyMarketBrokenPeriodTruncates(days: int)
    requires days >= 0
    ensures MoneyMarketBrokenPeriodAsWritten(days) == (days / 182) as real
    ensures 0 < days < 182 ==> MoneyMarketBrokenPeriodAsWritten(days) == 0.0
                               && MoneyMarketBrokenPeriod(days) > 0.0
  {
  }

  /** calculateBrokenPeriodDiscountFactor, final (money-market) branch: simple
      discounting over the broken period. */
  function FinalPeriodDiscountFactor(df: real, bp: real): (r: real)
    requires df + bp * (1.0 - df) != 0.0
    ensures 0.0 < df <= 1.0 && bp >= 0.0 ==> 0.0 < r <= 1.0
  {
    var den := df + bp * (1.0 - df);
    FinalPeriodDenominatorPositive(df, bp);
    df / den
  }

  /** For a discount factor in (0, 1] and a non-negative broken period the final-period
      denominator is at least the discount factor, so it is positive. */
  lemma FinalPeriodDenominatorPositive(df: real, bp: real)
    ensures 0.0 < df <= 1.0 && bp >= 0.0 ==> df <= df + bp * (1.0 - df)
  {
    if 0.0 < df <= 1.0 && bp >= 0.0 {
      PositiveProductOrZero(bp, 1.0 - df);
    }
  }

  lemma PositiveProductOrZero(a: real, b: real)
    requires a >= 0.0 && b >= 0.0
    ensures a * b >= 0.0
  {
  }

  /** With df = 1 / (1 + y/200) the final-period factor is simple interest:
      1 / (1 + bp * y / 200). */
  lemma FinalPeriodIsSimpleInterest(yld: real, bp: real)
    requires yld > -200.0 && 200.0 + bp * yld > 0.0
    ensures var df := DiscountFactor(yld);
            df + bp * (1.0 - df) != 0.0
            && FinalPeriodDiscountFactor(df, bp) == 200.0 / (200.0 + bp * yld)
  {
  }

  /** calculateBrokenPeriodDiscountFactor: fractional compounding `pow(df, bp)`
      before the final period, simple discounting in it. */
  function BrokenPeriodDiscountFactor(nextCouponDate: Date, maturityDate: Date, df: real,
                                      bp: real, pow: (real, real) -> real): real
    requires nextCouponDate == maturityDate ==> df + bp * (1.0 - df) != 0.0
  {
    if nextCouponDate != maturityDate then pow(df, bp)
    else FinalPeriodDiscountFactor(df, bp)
  }

  /** calculateAllInPrice */
  function AllInPrice(df: real, bpdf: real, couponPayable: real, basicCouponAmount: real,
                      remainingCoupons: int): real
    requires df != 0.0 && df != 1.0
  {
    bpdf * (couponPayable + basicCouponAmount * AnnuityFactor(df, remainingCoupons)
            + 100.0 * IntPower(df, remainingCoupons))
  }

  /** The closed form df (1 - df^n) / (1 - df) in calculateAllInPrice that values the
      remaining coupons of 1. */
  function AnnuityFactor(df: real, n: int): real
    requires df != 0.0 && df != 1.0
  {
    df * (1.0 - IntPower(df, n)) / (1.0 - df)
  }

  /** The present value of n coupons of 1 paid at the ends of the next n half-years:
      df + df^2 + ... + df^n. */
  function CouponAnnuity(df: real, n: nat): real {
    if n == 0 then 0.0 else CouponAnnuity(df, n - 1) + Power(df, n)
  }

  /** The closed form used in calculateAllInPrice is the annuity sum. */
  lemma {:induction false} GeometricSeries(df: real, n: nat)
    ensures CouponAnnuity(df, n) * (1.0 - df) == df * (1.0 - Power(df, n))
  {
    if n > 0 {
      GeometricSeries(df, n - 1);
      var p := Power(df, n - 1);
      assert Power(df, n) == df * p;
      calc {
        CouponAnnuity(df, n) * (1.0 - df);
        (CouponAnnuity(df, n - 1) + df * p) * (1.0 - df);
        CouponAnnuity(df, n - 1) * (1.0 - df) + df * p * (1.0 - df);
        df * (1.0 - p) + df * p * (1.0 - df);
        df * (1.0 - df * p);
      }
    }
  }

  /** The all-in price is the broken-period discount of the coupon payable now, the
      remaining coupons at every later coupon date, and 100 at maturity. */
  lemma AllInPriceIsPresentValue(df: real, bpdf: real, couponPayable: real,
                                 basicCouponAmount: real, n: nat)
    requires df != 0.0 && df != 1.0
    ensures AllInPrice(df, bpdf, couponPayable, basicCouponAmount, n)
            == bpdf * (couponPayable + basicCouponAmount * CouponAnnuity(df, n)
                       + 100.0 * Power(df, n))
  {
    AnnuityFactorIsSum(df, n);
    assert IntPower(df, n) == Power(df, n);
  }

  /** For n coupons the closed form equals the sum df + df^2 + ... + df^n. */
  lemma AnnuityFactorIsSum(df: real, n: nat)
    requires df != 0.0 && df != 1.0
    ensures AnnuityFactor(df, n) == CouponAnnuity(df, n)
  {
    GeometricSeries(df, n);
    assert IntPower(df, n) == Power(df, n);
    Cancel(df * (1.0 - Power(df, n)), CouponAnnuity(df, n), 1.0 - df);
  }

  lemma NonNegativeQuotient(x: real, e: real)
    requires x >= 0.0 && e > 0.0
    ensures x / e >= 0.0
  {
  }

  lemma Cancel(x: real, a: real, e: real)
    requires e != 0.0 && x == a * e
    ensures x / e == a
  {
  }

  /** At a positive yield the redemption is worth at most par today, and with
      non-negative coupons and a positive broken-period factor the all-in price is
      positive. */
  lemma AllInPricePositive(yld: real, bpdf: real, couponPayable: real,
                           basicCouponAmount: real, n: nat)
    requires yld > 0.0 && bpdf > 0.0 && couponPayable >= 0.0 && basicCouponAmount >= 0.0
    ensures var df := DiscountFactor(yld);
            0.0 < 100.0 * IntPower(df, n) <= 100.0
            && AllInPrice(df, bpdf, couponPayable, basicCouponAmount, n) > 0.0
  {
    var df := DiscountFactor(yld);
    PowerBounds(df, n);
    var p := IntPower(df, n);
    assert 0.0 < p <= 1.0;
    PositiveProductOrZero(df, 1.0 - p);
    NonNegativeQuotient(df * (1.0 - p), 1.0 - df);
    var q := AnnuityFactor(df, n);
    PositiveProductOrZero(basicCouponAmount, q);
    var bracket := couponPayable + basicCouponAmount * q + 100.0 * p;
    assert bracket > 0.0;
    PositiveProduct(bpdf, bracket);
  }

  /** Priced at its own coupon rate, a bond is worth par before the broken period:
      the coupons and the redemption discount to exactly 100. */
  lemma ParYieldPricesAtPar(couponRate: real, bpdf: real, couponPayable: real, n: int)
    requires couponRate > 0.0
    ensures var df := DiscountFactor(couponRate);
            AllInPrice(df, bpdf, couponPayable, BasicCouponAmount(couponRate), n)
            == bpdf * (couponPayable + 100.0)
  {
  }

  /** calculateCleanPrice */
  function CleanPrice(allInPrice: real, accruedInterest: real): real {
    allInPrice - accruedInterest
  }

  /** The unrounded value of the pricing formula, or NonFinite where the formula divides
      by zero (yield -200, yield 0, or a zero final-period denominator). There the Java
      double is an infinity or NaN, which the five-decimal Math.round of the getters
      turns into a finite number; the model does not round. */
  datatype Outcome = Finite(value: real) | NonFinite

  /** getAllInPrice before rounding: discount factor, broken period, broken-period
      discount factor and all-in price, in the order the Java method computes them.
      The branch on an empty coupon period only meets BrokenPeriod's precondition:
      no resolved schedule reaches it (Schedule.ResolvedPeriodNonEmpty). */
  function AllInPriceAt(st: PricingState, maturityDate: Date, basicCouponAmount: real,
                        yld: real, pow: (real, real) -> real): (r: Outcome)
    requires ValidDate(st.settlementDate) && ValidDate(st.nextCouponDate)
    requires ValidDate(st.lastCouponDate) && ValidDate(maturityDate)
    ensures r.Finite? ==> yld != 0.0 && yld != -200.0
  {
    if yld == -200.0 then NonFinite
    else
      var df := DiscountFactor(yld);
      if st.nextCouponDate != maturityDate
         && DaysBetween(st.lastCouponDate, st.nextCouponDate) == 0 then NonFinite
      else
        var bp := BrokenPeriod(st.settlementDate, st.nextCouponDate, st.lastCouponDate,
                               maturityDate);
        if st.nextCouponDate == maturityDate && df + bp * (1.0 - df) == 0.0 then NonFinite
        else if df == 1.0 then NonFinite
        else
          var bpdf := BrokenPeriodDiscountFactor(st.nextCouponDate, maturityDate, df, bp, pow);
          Finite(AllInPrice(df, bpdf, st.couponPayable, basicCouponAmount,
                            st.numberRemainingCoupons))
  }

  /** At a positive yield the price is finite whenever settlement is not after the
      next coupon and, before the final period, the coupon period has positive length. */
  lemma AllInPriceAtFinite(st: PricingState, maturityDate: Date, basicCouponAmount: real,
                           yld: real, pow: (real, real) -> real)
    requires ValidDate(st.settlementDate) && ValidDate(st.nextCouponDate)
    requires ValidDate(st.lastCouponDate) && ValidDate(maturityDate)
    requires yld > 0.0 && DaysBetween(st.settlementDate, st.nextCouponDate) >= 0
    requires st.nextCouponDate != maturityDate
             ==> DaysBetween(st.lastCouponDate, st.nextCouponDate) != 0
    ensures AllInPriceAt(st, maturityDate, basicCouponAmount, yld, pow).Finite?
  {
    var df := DiscountFactor(yld);
    assert 0.0 < df < 1.0;
    if st.nextCouponDate == maturityDate {
      var days := DaysBetween(st.settlementDate, st.nextCouponDate);
      var bp := MoneyMarketBrokenPeriodAsWritten(days);
      MoneyMarketBrokenPeriodTruncates(days);
      assert bp >= 0.0;
      assert BrokenPeriod(st.settlementDate, st.nextCouponDate, st.lastCouponDate,
                          maturityDate) == bp;
      FinalPeriodDenominatorPositive(df, bp);
    }
  }

  /** Before the final period the broken period is a fraction of the coupon period in
      (0, 1]. In the final period it is, as written, the whole number days div 182,
      which is 0 for a final period shorter than 182 days; the intended days / 182.5
      is positive there. */
  lemma BrokenPeriodBounds(t: BondDetails, s: Date)
    requires WellFormed(t) && ValidDate(s)
    ensures DaysBetween(LastCouponDate(t, NextCouponDate(t, s)), NextCouponDate(t, s)) > 0
    ensures var next := NextCouponDate(t, s);
            var last := LastCouponDate(t, next);
            var bp := BrokenPeriod(s, next, last, t.maturityDate);
            0.0 <= bp
            && (next != t.maturityDate ==> 0.0 < bp <= 1.0)
            && (next == t.maturityDate ==> bp == (DaysBetween(s, next) / 182) as real)
            && 0.0 < BrokenPeriodIntended(s, next, last, t.maturityDate)
  {
    var next := NextCouponDate(t, s);
    var last := LastCouponDate(t, next);
    CouponPeriodBracketsSettlement(t, s);
    EpochDayOrder(last, next);
    EpochDayOrder(s, next);
    EpochDayOrder(last, s);
    var days := DaysBetween(s, next);
    if next == t.maturityDate {
      MoneyMarketBrokenPeriodTruncates(days);
      assert MoneyMarketBrokenPeriod(days) > 0.0;
    } else {
      FractionBounds(days, DaysBetween(last, next));
    }
  }

  lemma FractionBounds(num: int, den: int)
    requires 0 < num <= den
    ensures 0.0 < num as real / den as real <= 1.0
  {
  }

  /** Every price is finite at a positive yield on a well-formed schedule. */
  lemma PositiveYieldPricesAreFinite(t: BondDetails, s: Date, yld: real,
                                     pow: (real, real) -> real)
    requires WellFormed(t) && ValidDate(s) && yld > 0.0
    ensures AllInPriceAt(Resolve(t, s), t.maturityDate, BasicCouponAmount(t.couponRate),
                         yld, pow).Finite?
  {
    var st := Resolve(t, s);
    BrokenPeriodBounds(t, s);
    CouponPeriodBracketsSettlement(t, s);
    EpochDayOrder(s, st.nextCouponDate);
    AllInPriceAtFinite(st, t.maturityDate, BasicCouponAmount(t.couponRate), yld, pow);
  }
}
