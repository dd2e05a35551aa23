/** The BondPricer object: the bond's fixed terms, which Java declares final, and
    the schedule fields that setSettlementDate overwrites in a fixed order, each
    computed from the fields assigned before it. */
module Pricer {
  import opened Dates
  import opened Bonds
  import opened Schedule
  import opened Pricing

  class BondPricer {
    const maturityDate: Date
    const couponRate: real
    const firstCouponDate: MonthDay
    const secondCouponDate: MonthDay
    const firstBooksCloseDate: MonthDay
    const secondBooksCloseDate: MonthDay
    const basicCouponAmount: real

    var settlementDate: Date
    var nextCouponDate: Date
    var booksCloseDate: Date
    var lastCouponDate: Date
    var numberRemainingCoupons: int
    var daysAccrued: int
    var cumexFlag: bool
    var couponPayable: real
    var accruedInterest: real

    /** The fixed terms, as the BondDetails they were copied from. */
    function Terms(): BondDetails {
      BondDetails(maturityDate, couponRate, firstCouponDate, secondCouponDate,
                  firstBooksCloseDate, secondBooksCloseDate)
    }

    /** The mutable schedule fields. */
    function State(): PricingState
      reads this
    {
      PricingState(settlementDate, nextCouponDate, booksCloseDate, lastCouponDate,
                   numberRemainingCoupons, cumexFlag, daysAccrued, couponPayable,
                   accruedInterest)
    }

    ghost predicate TermsValid() {
      WellFormed(Terms()) && basicCouponAmount == BasicCouponAmount(couponRate)
    }

    /** The object invariant: the schedule fields are the ones the terms and the
        settlement date determine. */
    ghost predicate Valid()
      reads this
    {
      TermsValid() && ValidDate(settlementDate)
      && State() == Resolve(Terms(), settlementDate)
    }

    constructor (bondType: BondType, settlementDate: Date)
      requires ValidDate(settlementDate)
      ensures Valid() && Terms() == bondType.Details()
      ensures State() == Resolve(bondType.Details(), settlementDate)
    {
      var details := bondType.Details();
      maturityDate := details.maturityDate;
      couponRate := details.couponRate;
      firstCouponDate := details.firstCouponDate;
      secondCouponDate := details.secondCouponDate;
      firstBooksCloseDate := details.firstBooksCloseDate;
      secondBooksCloseDate := details.secondBooksCloseDate;
      basicCouponAmount := details.couponRate / Frequency as real;
      new;
      SetSettlementDate(settlementDate);
    }

    /** setSettlementDate: recomputes every schedule field; the terms are
        constants and cannot change. */
    method SetSettlementDate(settlementDate: Date)
      requires TermsValid() && ValidDate(settlementDate)
      modifies this
      ensures Valid() && this.settlementDate == settlementDate
      ensures State() == Resolve(Terms(), settlementDate)
      ensures !Before(settlementDate, lastCouponDate) && Before(settlementDate, nextCouponDate)
      ensures Before(lastCouponDate, booksCloseDate) && Before(booksCloseDate, nextCouponDate)
      ensures cumexFlag <==> Before(settlementDate, booksCloseDate)
    {
      CouponPeriodBracketsSettlement(Terms(), settlementDate);
      BooksCloseInsidePeriod(Terms(), settlementDate);
      this.settlementDate := settlementDate;
      nextCouponDate := NextCouponDate(Terms(), this.settlementDate);
      booksCloseDate := BooksCloseDate(Terms(), nextCouponDate);
      lastCouponDate := LastCouponDate(Terms(), nextCouponDate);
      numberRemainingCoupons := RemainingCoupons(Terms(), nextCouponDate);
      cumexFlag := IsCumEx(this.settlementDate, booksCloseDate);
      daysAccrued := DaysAccrued(cumexFlag, lastCouponDate, nextCouponDate, this.settlementDate);
      couponPayable := CouponPayable(basicCouponAmount, cumexFlag);
      accruedInterest := AccruedInterest(daysAccrued, couponRate);
      assert State() == Resolve(Terms(), settlementDate);
    }

    /** getAllInPrice before rounding to five decimals, on the current schedule
        fields: NonFinite where the unrounded formula divides by zero. */
    method GetAllInPrice(yld: real, pow: (real, real) -> real) returns (price: Outcome)
      requires Valid()
      ensures price == AllInPriceAt(State(), maturityDate, basicCouponAmount, yld, pow)
      ensures yld > 0.0 ==> price.Finite?
      ensures price.Finite? ==> yld != 0.0 && yld != -200.0
    {
      price := AllInPriceAt(State(), maturityDate, basicCouponAmount, yld, pow);
      CouponPeriodBracketsSettlement(Terms(), settlementDate);
      EpochDayOrder(settlementDate, nextCouponDate);
      EpochDayOrder(lastCouponDate, nextCouponDate);
      if yld > 0.0 {
        AllInPriceAtFinite(State(), maturityDate, basicCouponAmount, yld, pow);
      }
    }

    /** getCleanPrice before rounding: the all-in price less the accrued interest. */
    method GetCleanPrice(yld: real, pow: (real, real) -> real) returns (price: Outcome)
      requires Valid()
      ensures var allIn := AllInPriceAt(State(), maturityDate, basicCouponAmount, yld, pow);
              price.Finite? == allIn.Finite?
              && (price.Finite? ==> price.value + accruedInterest == allIn.value)
    {
      var allIn := GetAllInPrice(yld, pow);
      if allIn.Finite? {
        price := Finite(CleanPrice(allIn.value, accruedInterest));
      } else {
        price := NonFinite;
      }
    }

    /** getBondPrices before rounding: the clean and the all-in price at one yield. */
    method GetBondPrices(yld: real, pow: (real, real) -> real)
      returns (cleanPrice: Outcome, allInPrice: Outcome)
      requires Valid()
      ensures allInPrice == AllInPriceAt(State(), maturityDate, basicCouponAmount, yld, pow)
      ensures cleanPrice.Finite? == allInPrice.Finite?
      ensures cleanPrice.Finite? ==> cleanPrice.value + accruedInterest == allInPrice.value
      ensures yld > 0.0 ==> allInPrice.Finite?
    {
      allInPrice := GetAllInPrice(yld, pow);
      cleanPrice := if allInPrice.Finite? then Finite(CleanPrice(allInPrice.value, accruedInterest))
                    else NonFinite;
    }
  }
}
