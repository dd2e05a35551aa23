/** The fixed terms of a bond (the BondDetails record) and the table of bonds
    the pricer knows (the BondType enum). */
module Bonds {
  import opened Dates

  /** BondDetails: maturity, annual coupon rate (percent), the two coupon
      anniversaries and the two books-close anniversaries. */
  datatype BondDetails = BondDetails(
    maturityDate: Date,
    couponRate: real,
    firstCouponDate: MonthDay,
    secondCouponDate: MonthDay,
    firstBooksCloseDate: MonthDay,
    secondBooksCloseDate: MonthDay)

  /** What the Java types guarantee of every BondDetails value: a real maturity
      date and four month-days that java.time accepts. */
  predicate ValidTerms(t: BondDetails) {
    ValidDate(t.maturityDate)
    && t.firstCouponDate.Valid() && t.secondCouponDate.Valid()
    && t.firstBooksCloseDate.Valid() && t.secondBooksCloseDate.Valid()
  }

  /** a falls strictly before b in every year. Checking a common year is enough:
      there 29 February resolves to 28 February, the only way two distinct
      month-days can collapse onto one date. */
  predicate AnniversaryBefore(a: MonthDay, b: MonthDay)
    requires a.Valid() && b.Valid()
  {
    Before(a.AtYear(1), b.AtYear(1))
  }

  /** The shape of a semi-annual schedule: within a calendar year the first
      books-close, the first coupon, the second books-close and the second coupon
      come in that order, so each books-close precedes the coupon it belongs to. */
  predicate WellFormed(t: BondDetails) {
    ValidTerms(t)
    && AnniversaryBefore(t.firstBooksCloseDate, t.firstCouponDate)
    && AnniversaryBefore(t.firstCouponDate, t.secondBooksCloseDate)
    && AnniversaryBefore(t.secondBooksCloseDate, t.secondCouponDate)
  }

  /** An order checked in a common year holds in every year: the justification for
      checking AnniversaryBefore in year 1 only. */
  lemma AnniversaryBeforeAtYear(a: MonthDay, b: MonthDay, y: int)
    requires a.Valid() && b.Valid() && AnniversaryBefore(a, b)
    ensures Before(a.AtYear(y), b.AtYear(y))
  {
  }

  /** The bonds the pricer is built for. */
  datatype BondType = R186 | R2032 {
    function Details(): (t: BondDetails)
      ensures WellFormed(t)
    {
      match this
      case R186 =>
        BondDetails(Date(2026, 12, 21), 10.5, MonthDay(6, 21), MonthDay(12, 21),
                    MonthDay(6, 11), MonthDay(12, 11))
      case R2032 =>
        BondDetails(Date(2032, 3, 31), 8.25, MonthDay(3, 31), MonthDay(9, 30),
                    MonthDay(3, 21), MonthDay(9, 20))
    }
  }
}
