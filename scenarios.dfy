/** Concrete schedules and factors for the two bonds of the table, at the
    settlement dates and yields of BondPricerTest. Prices before the final period
    depend on the fractional power and are not evaluated here; the one final-period
    price, which does not, is. */
module Scenarios {
  import opened Dates
  import opened Bonds
  import opened Schedule
  import opened Pricing

  /** testNextCouponDate: between the coupons, on a coupon, after the second coupon,
      before the first coupon. */
  lemma R186NextCouponDates()
    ensures NextCouponDate(R186.Details(), Date(2005, 8, 26)) == Date(2005, 12, 21)
    ensures NextCouponDate(R186.Details(), Date(2005, 12, 21)) == Date(2006, 6, 21)
    ensures NextCouponDate(R186.Details(), Date(2005, 12, 25)) == Date(2006, 6, 21)
    ensures NextCouponDate(R186.Details(), Date(2005, 5, 20)) == Date(2005, 6, 21)
  {
  }

  /** testLastCouponDate */
  lemma R186LastCouponDates()
    ensures Resolve(R186.Details(), Date(2005, 6, 1)).lastCouponDate == Date(2004, 12, 21)
    ensures Resolve(R186.Details(), Date(2006, 1, 1)).lastCouponDate == Date(2005, 12, 21)
  {
  }

  /** testBooksCloseDate */
  lemma R186BooksCloseDates()
    ensures Resolve(R186.Details(), Date(2005, 6, 1)).booksCloseDate == Date(2005, 6, 11)
    ensures Resolve(R186.Details(), Date(2005, 12, 20)).booksCloseDate == Date(2005, 12, 11)
  {
  }

  /** testCouponPayable: settling after books close is ex, and no coupon is payable. */
  lemma R186ExCoupon()
    ensures var st := Resolve(R186.Details(), Date(2005, 6, 12));
            !st.cumexFlag && st.couponPayable == 0.0 && st.daysAccrued == -9
  {
  }

  /** testToString and testAccruedInterest at 2005-08-26: 42 coupons remain, 66 days
      accrued, and the accrued interest 693/365 rounds to 1.89863. */
  lemma R186StateAt20050826()
    ensures var st := Resolve(R186.Details(), Date(2005, 8, 26));
            st.nextCouponDate == Date(2005, 12, 21) && st.booksCloseDate == Date(2005, 12, 11)
            && st.numberRemainingCoupons == 42 && st.cumexFlag && st.daysAccrued == 66
            && st.couponPayable == 5.25 && st.accruedInterest == 693.0 / 365.0
            && 1.898625 <= st.accruedInterest < 1.898635
  {
  }

  /** testBrokenPeriod at 2005-08-26 and yield 7.5: df = 80/83, bp = 117/183. */
  lemma R186FactorsAt20050826()
    ensures var st := Resolve(R186.Details(), Date(2005, 8, 26));
            DiscountFactor(7.5) == 80.0 / 83.0
            && BrokenPeriod(st.settlementDate, st.nextCouponDate, st.lastCouponDate,
                            R186.Details().maturityDate) == 117.0 / 183.0
  {
  }

  /** testBrokenPeriod in the final period (2026-07-28, yield 7.5): 146 days remain.
      As written, the integer division gives a broken period of 0 and so no
      discounting at all. The intended 146 / 182.5 = 0.8 gives 1 / 1.03 =
      0.970873786..., the factor the test states. */
  lemma R186FinalPeriodAt20260728()
    ensures var st := Resolve(R186.Details(), Date(2026, 7, 28));
            var maturity := R186.Details().maturityDate;
            var df := DiscountFactor(7.5);
            st.nextCouponDate == maturity
            && DaysBetween(st.settlementDate, st.nextCouponDate) == 146
            && BrokenPeriod(st.settlementDate, st.nextCouponDate, st.lastCouponDate, maturity) == 0.0
            && FinalPeriodDiscountFactor(df, 0.0) == 1.0
            && BrokenPeriodIntended(st.settlementDate, st.nextCouponDate, st.lastCouponDate,
                                    maturity) == 0.8
            && FinalPeriodDiscountFactor(df, 0.8) == 100.0 / 103.0
  {
    FinalPeriodIsSimpleInterest(7.5, 0.8);
    assert MoneyMarketBrokenPeriod(146) == 0.8;
  }

  /** The all-in price at the same date and yield, where no coupon remains after the
      final one and the bond is cum: as written 105.25, the coupon and the redemption
      undiscounted, whatever the fractional power; with the intended factor
      105.25 / 1.03 = 10525 / 103. */
  lemma R186FinalPeriodPricesAt20260728(pow: (real, real) -> real)
    ensures var st := Resolve(R186.Details(), Date(2026, 7, 28));
            var df := DiscountFactor(7.5);
            st.numberRemainingCoupons == 0 && st.cumexFlag && st.couponPayable == 5.25
            && AllInPriceAt(st, R186.Details().maturityDate, 5.25, 7.5, pow) == Finite(105.25)
            && AllInPrice(df, 100.0 / 103.0, 5.25, 5.25, 0) == 10525.0 / 103.0
  {
    R186FinalPeriodAt20260728();
  }

  /** testFirstExample: R186 at 2017-02-07, yield 8.75. */
  lemma R186FirstExample()
    ensures var st := Resolve(R186.Details(), Date(2017, 2, 7));
            st.nextCouponDate == Date(2017, 6, 21) && st.lastCouponDate == Date(2016, 12, 21)
            && st.booksCloseDate == Date(2017, 6, 11) && st.couponPayable == 5.25
            && DiscountFactor(8.75) == 160.0 / 167.0
            && BrokenPeriod(st.settlementDate, st.nextCouponDate, st.lastCouponDate,
                            R186.Details().maturityDate) == 134.0 / 182.0
  {
  }

  /** testSecondExample: R2032 at 2024-05-16, yield 9.5. */
  lemma R2032SecondExample()
    ensures var st := Resolve(R2032.Details(), Date(2024, 5, 16));
            st.nextCouponDate == Date(2024, 9, 30) && st.lastCouponDate == Date(2024, 3, 31)
            && st.booksCloseDate == Date(2024, 9, 20) && st.couponPayable == 4.125
            && DiscountFactor(9.5) == 400.0 / 419.0
            && BrokenPeriod(st.settlementDate, st.nextCouponDate, st.lastCouponDate,
                            R2032.Details().maturityDate) == 137.0 / 183.0
  {
  }
}
