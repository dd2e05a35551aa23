# BondPricer in Dafny

A model of the pricing engine of a JSE bond pricer: the `BondPricer` class that
implements the JSE Bond Pricing Formula for fixed-coupon government bonds, with the
`BondDetails` record of a bond's fixed terms and the `BondType` table of bonds (R186,
R2032).

The model has two parts.

- **Schedule resolution** (`schedule.dfy`, `pricer.dfy`). `setSettlementDate` takes a
  settlement date and derives, in a fixed order, the next coupon date, the books-close
  date, the last coupon date, the remaining coupon count, the cum/ex flag, the days
  accrued, the coupon payable and the accrued interest. Each derivation is a Dafny
  function named after its Java helper; `Resolve` composes them in the Java order; the
  class `Pricer.BondPricer` keeps the nine mutable fields, and `SetSettlementDate`
  assigns them one after another and promises that they equal `Resolve` of the terms and
  the new settlement date. The bond terms are `const` fields, as they are `final` in
  Java, so no method can change them.
- **The rational part of pricing** (`pricing.dfy`). The discount factor, the broken
  period, the final-period broken-period discount factor, the all-in price with integer
  powers of the discount factor, and the clean price, all over exact `real`s. The
  fractional power `Math.pow(discountFactor, brokenPeriod)` used before the final period
  is a function parameter `pow`. The pricing functions follow the code as written,
  including the integer division of the final-period broken period (see "Findings");
  `BrokenPeriodIntended` is the broken period the formula intends.

The calendar (`dates.dfy`) is a small proleptic-Gregorian model of `java.time`: a
`Date(year, month, day)`, `Before` for `LocalDate.isBefore` (lexicographic), `EpochDay`
for `LocalDate.toEpochDay`, so that `ChronoUnit.DAYS.between(a, b)` is
`DaysBetween(a, b) == EpochDay(b) - EpochDay(a)`, and `MonthDay.AtYear`, which turns 29
February into 28 February in a common year. `EpochDayNext` shows that the day count
advances by exactly one per day, which with `EpochDay(1970-01-01) == 0` identifies it
with Java's epoch day.

The schedule lemmas assume `Bonds.WellFormed` terms: in every calendar year the first
books-close, the first coupon, the second books-close and the second coupon fall in
that order. `BondType.Details` proves this for both bonds of the table. The functions
themselves only need what the Java types guarantee (`ValidTerms`).

Where the unrounded formula divides by zero (yield -200, yield 0, a zero final-period
denominator), the Java double is infinite or NaN before the getters round it, and the
rounding turns it into a finite number (see "Left out"). The pure helpers require
non-zero denominators; `AllInPriceAt` and the class methods return `NonFinite` for the
unrounded value in those cases.

`scenarios.dfy` restates the schedule facts and factors of `BondPricerTest` for R186 and
R2032 as lemmas.

## Model

| member | source | states |
|---|---|---|
| `Dates.MonthDay.AtYear` | src/main/java/bondpricer/BondPricer.java:162-170 | `MonthDay.atYear`: a valid date in the requested year and month whose day is the month-day's day clamped to the month's length (only 29 February moves, to 28 February) |
| `Dates.Before` | src/main/java/bondpricer/BondPricer.java:163-169 | `LocalDate.isBefore`: lexicographic on (year, month, day); `EpochDayOrder` ties it to the day count |
| `Dates.EpochDay` | src/main/java/bondpricer/BondPricer.java:185 | `LocalDate.toEpochDay`: days before the year, before the month, and into the month, counted from 1970-01-01; pinned down by `EpochDayNext` |
| `Dates.DaysBetween` | src/main/java/bondpricer/BondPricer.java:185 | `ChronoUnit.DAYS.between(a, b)` as the difference of the two epoch days, negative when b is before a |
| `Dates.EpochDayNext` | src/main/java/bondpricer/BondPricer.java:184-187 | the day count behind `ChronoUnit.DAYS.between` advances by one from each date to the next, and is 0 on 1970-01-01 |
| `Dates.EpochDayOrder` | src/main/java/bondpricer/BondPricer.java:163-169 | `isBefore` holds exactly when the epoch day is smaller, and two dates are equal exactly when their epoch days are |
| `Bonds.BondDetails` | src/main/java/bondpricer/BondDetails.java:18-25 | the record of a bond's terms: maturity, coupon rate, the two coupon and the two books-close month-days |
| `Bonds.AnniversaryBeforeAtYear` | src/main/java/bondpricer/BondPricer.java:162-182 | an order of two month-days checked in a common year holds after `atYear` in every year, which is why `WellFormed` checks one year only |
| `Bonds.BondType.Details` | src/main/java/bondpricer/BondType.java:15-22 | the R186 and R2032 terms; both satisfy the schedule-order invariant `WellFormed` |
| `Schedule.NextCouponDate` | src/main/java/bondpricer/BondPricer.java:162-170 | `getNextCouponDate` yields a valid date that is one of the two coupon anniversaries of its year |
| `Schedule.LastCouponDate` | src/main/java/bondpricer/BondPricer.java:172-176 | `getLastCouponDate` yields a valid coupon date |
| `Schedule.BooksCloseDate` | src/main/java/bondpricer/BondPricer.java:178-182 | `getBooksCloseDate` yields a valid date in the next coupon's year |
| `Schedule.RoundHalfUp` | src/main/java/bondpricer/BondPricer.java:186 | `Math.round`: the integer nearest x, halves going up |
| `Schedule.RemainingCoupons` | src/main/java/bondpricer/BondPricer.java:184-187 | `calculateRemainingCoupons`: days from the next coupon to maturity over 182.625, rounded half up; its closed form is `RemainingCouponsClosedForm` |
| `Schedule.IsCumEx` | src/main/java/bondpricer/BondPricer.java:189-191 | `isCumEx`: settlement strictly before books close; `CumExAndCouponPayable` gives both directions on a resolved schedule |
| `Schedule.DaysAccrued` | src/main/java/bondpricer/BondPricer.java:193-196 | `calculateDaysAccrued`: days from the last coupon when cum, from the next coupon when ex; bounds in `DaysAccruedBounds` |
| `Schedule.BasicCouponAmount` | src/main/java/bondpricer/BondPricer.java:59 | the constructor's `couponRate / FREQUENCY`, one of the two equal coupons |
| `Schedule.CouponPayable` | src/main/java/bondpricer/BondPricer.java:202-204 | `calculateCouponPayable`: the basic coupon when cum, 0 when ex |
| `Schedule.AccruedInterest` | src/main/java/bondpricer/BondPricer.java:206-208 | `calculateAccruedInterest`: days accrued times the coupon rate over 365; its sign is `AccruedInterestSign` |
| `Schedule.Resolve` | src/main/java/bondpricer/BondPricer.java:68-78 | the fields of `setSettlementDate`, each from the ones before it; all resolved dates are valid |
| `Schedule.NextCouponAfterSettlement` | src/main/java/bondpricer/BondPricer.java:162-170 | the next coupon is a coupon date strictly after settlement, in the settlement year or the one after |
| `Schedule.NextCouponIsEarliest` | src/main/java/bondpricer/BondPricer.java:162-170 | every coupon date strictly after settlement is on or after the next coupon |
| `Schedule.SettlementOnCouponRollsForward` | src/test/java/bondpricer/BondPricerTest.java:37-42 | settling on the first coupon of a year gives that year's second coupon; settling on the second gives the next year's first |
| `Schedule.CouponPeriodBracketsSettlement` | src/main/java/bondpricer/BondPricer.java:172-176 | last coupon <= settlement < next coupon, and last < next |
| `Schedule.ResolvedPeriodNonEmpty` | src/main/java/bondpricer/BondPricer.java:172-176 | for any valid terms the last coupon differs from the next, so the coupon period `calculateBrokenPeriod` divides by (line 214) is never empty |
| `Schedule.NoCouponInsidePeriod` | src/main/java/bondpricer/BondPricer.java:172-176 | no coupon date lies strictly between the last and the next coupon |
| `Schedule.SamePeriodSameCoupons` | src/main/java/bondpricer/BondPricer.java:162-176 | any settlement in [last, next) of another resolves to the same next and last coupons |
| `Schedule.BooksCloseInsidePeriod` | src/main/java/bondpricer/BondPricer.java:178-182 | the books-close date lies strictly between the last and the next coupon, in the next coupon's year |
| `Schedule.CumExAndCouponPayable` | src/main/java/bondpricer/BondPricer.java:189-204 | cum iff settlement is strictly before books close; ex means books close <= settlement < next coupon; coupon payable is couponRate/2 when cum and exactly 0 when ex |
| `Schedule.DaysAccruedBounds` | src/main/java/bondpricer/BondPricer.java:193-196 | cum: days from the last coupon, 0 <= days < period length; ex: days to the next coupon, negative and no earlier than books close |
| `Schedule.AccruedInterestSign` | src/main/java/bondpricer/BondPricer.java:206-208 | for a positive coupon rate the accrued interest is >= 0 when cum and < 0 when ex |
| `Schedule.RemainingCouponsClosedForm` | src/main/java/bondpricer/BondPricer.java:184-187 | `round(days / 182.625)` equals `(16 * days + 1461) div 2922`, is >= 0 when maturity is not earlier, and is 0 when the next coupon is the maturity |
| `Pricing.DiscountFactor` | src/main/java/bondpricer/BondPricer.java:198-200 | `1 / (1 + yield/200)` is non-zero, is 1 exactly at yield 0, and for yield > -200 is positive and below 1 exactly when the yield is positive |
| `Pricing.DiscountFactorDecreasing` | src/main/java/bondpricer/BondPricer.java:198-200 | the discount factor strictly decreases as the yield increases above -200 |
| `Pricing.IntPower` | src/main/java/bondpricer/BondPricer.java:157-159 | `Math.pow(discountFactor, numberRemainingCoupons)` for a whole exponent; a negative exponent divides |
| `Pricing.BrokenPeriod` | src/main/java/bondpricer/BondPricer.java:210-216 | `calculateBrokenPeriod` as written: days to the next coupon over the coupon period's days, and in the final period the truncated `days div 182`; bounds in `BrokenPeriodBounds` |
| `Pricing.BrokenPeriodIntended` | src/main/java/bondpricer/BondPricer.java:210-216 | the same broken period with the final-period fraction days / 182.5 |
| `Pricing.BrokenPeriodBounds` | src/main/java/bondpricer/BondPricer.java:210-216 | the coupon period has positive length; the broken period is at least 0, in (0, 1] before the final period, and exactly `days div 182` in it; the intended one is positive |
| `Pricing.MoneyMarketBrokenPeriod` | src/main/java/bondpricer/BondPricer.java:215 | the intended final-period broken period: days over 182.5, positive for positive days |
| `Pricing.JavaDiv` | src/main/java/bondpricer/BondPricer.java:215 | Java integer division truncates toward zero: the remainder has the sign of the dividend and is smaller than the divisor |
| `Pricing.MoneyMarketBrokenPeriodAsWritten` | src/main/java/bondpricer/BondPricer.java:215 | the final-period broken period as written: the truncated quotient of the days by the int 182, widened to a real |
| `Pricing.MoneyMarketBrokenPeriodTruncates` | src/main/java/bondpricer/BondPricer.java:215 | the final broken period as written is the whole number `days div 182`, so it is 0 for every 0 < days < 182, where the intended one is positive |
| `Pricing.FinalPeriodDiscountFactor` | src/main/java/bondpricer/BondPricer.java:221 | `df / (df + bp (1 - df))` lies in (0, 1] when 0 < df <= 1 and bp >= 0 |
| `Pricing.BrokenPeriodDiscountFactor` | src/main/java/bondpricer/BondPricer.java:218-222 | `calculateBrokenPeriodDiscountFactor`: `pow(df, bp)` before the final period, `FinalPeriodDiscountFactor` in it |
| `Pricing.FinalPeriodIsSimpleInterest` | src/main/java/bondpricer/BondPricer.java:221 | with df from the yield, the final-period factor is simple discounting `200 / (200 + bp * yield)` |
| `Pricing.AllInPrice` | src/main/java/bondpricer/BondPricer.java:152-160 | `calculateAllInPrice`: the broken-period factor times the coupon payable, the coupons valued by the closed form, and 100 at df^n; `AllInPriceIsPresentValue` states what it means |
| `Pricing.AnnuityFactor` | src/main/java/bondpricer/BondPricer.java:156-157 | the closed form `df (1 - df^n) / (1 - df)`; `AnnuityFactorIsSum` shows it is the annuity sum |
| `Pricing.GeometricSeries` | src/main/java/bondpricer/BondPricer.java:156-158 | the closed form `df (1 - df^n) / (1 - df)` is the sum df + df^2 + ... + df^n |
| `Pricing.AnnuityFactorIsSum` | src/main/java/bondpricer/BondPricer.java:156-157 | for n >= 0 coupons the closed form equals df + df^2 + ... + df^n |
| `Pricing.AllInPriceIsPresentValue` | src/main/java/bondpricer/BondPricer.java:152-160 | the all-in price is the broken-period discount of the coupon payable, n coupon payments at df, df^2, ..., df^n, and 100 at df^n |
| `Pricing.ParYieldPricesAtPar` | src/main/java/bondpricer/BondPricer.java:152-160 | at a yield equal to the coupon rate the bracket is exactly couponPayable + 100 |
| `Pricing.CleanPrice` | src/main/java/bondpricer/BondPricer.java:148-150 | `calculateCleanPrice`: the all-in price less the accrued interest; the identity is stated on `GetCleanPrice` and `GetBondPrices` |
| `Pricing.AllInPricePositive` | src/main/java/bondpricer/BondPricer.java:152-160 | at a positive yield the redemption term `100 df^n` lies in (0, 100], and with non-negative coupons and a positive broken-period factor the all-in price is positive |
| `Pricing.AllInPriceAt` | src/main/java/bondpricer/BondPricer.java:96-109 | the chain discount factor, broken period (as written), broken-period discount factor, all-in price, `NonFinite` where Java divides by zero; finite only when the yield is neither 0 nor -200 |
| `Pricing.AllInPriceAtFinite` | src/main/java/bondpricer/BondPricer.java:96-109 | at a positive yield the price is finite when settlement is not after the next coupon and, before the final period, the coupon period has positive length |
| `Pricing.PositiveYieldPricesAreFinite` | src/main/java/bondpricer/BondPricer.java:96-109 | on every resolved schedule of well-formed terms, a positive yield gives a finite all-in price |
| `Pricer.BondPricer.constructor` | src/main/java/bondpricer/BondPricer.java:50-61 | copies the terms of the bond type and resolves the schedule for the settlement date |
| `Pricer.BondPricer.SetSettlementDate` | src/main/java/bondpricer/BondPricer.java:68-78 | sets every schedule field to `Resolve(terms, settlementDate)`; last <= settlement < next, last < books close < next, cum iff settlement is before books close; terms are constants |
| `Pricer.BondPricer.GetAllInPrice` | src/main/java/bondpricer/BondPricer.java:96-109 | the all-in price of the current fields, `AllInPriceAt` of the object's state (with the final-period broken period truncated as written); finite for every positive yield |
| `Pricer.BondPricer.GetCleanPrice` | src/main/java/bondpricer/BondPricer.java:117-120 | `calculateCleanPrice` of getAllInPrice: finite exactly when the all-in price is, and then the all-in price less the object's accrued interest |
| `Pricer.BondPricer.GetBondPrices` | src/main/java/bondpricer/BondPricer.java:129-146 | the pair (clean, all-in) at one yield, clean + accrued == all-in, finite for positive yields |
| `Scenarios.R186NextCouponDates` | src/test/java/bondpricer/BondPricerTest.java:24-57 | R186 next coupons for 2005-08-26, 2005-12-21, 2005-12-25, 2005-05-20 |
| `Scenarios.R186LastCouponDates` | src/test/java/bondpricer/BondPricerTest.java:59-79 | R186 last coupons 2004-12-21 and 2005-12-21 |
| `Scenarios.R186BooksCloseDates` | src/test/java/bondpricer/BondPricerTest.java:81-101 | R186 books-close dates 2005-06-11 and 2005-12-11 |
| `Scenarios.R186ExCoupon` | src/test/java/bondpricer/BondPricerTest.java:103-117 | at 2005-06-12 R186 is ex, coupon payable 0, days accrued -9 |
| `Scenarios.R186StateAt20050826` | src/test/java/bondpricer/BondPricerTest.java:147-173 | at 2005-08-26: 42 coupons remain, cum, 66 days accrued, coupon 5.25, accrued 693/365, which rounds to 1.89863 |
| `Scenarios.R186FactorsAt20050826` | src/test/java/bondpricer/BondPricerTest.java:119-134 | discount factor 80/83 at yield 7.5, broken period 117/183 |
| `Scenarios.R186FinalPeriodAt20260728` | src/test/java/bondpricer/BondPricerTest.java:136-144 | final period with 146 days left: as written bp 0 and factor 1; intended bp 0.8 and factor 100/103, the value the test expects |
| `Scenarios.R186FinalPeriodPricesAt20260728` | src/main/java/bondpricer/BondPricer.java:96-109 | at the same date and yield, as written the all-in price is 105.25 (no discounting) for every `pow`; with the intended factor it is 10525/103 |
| `Scenarios.R186FirstExample` | src/test/java/bondpricer/BondPricerTest.java:205-233 | R186 at 2017-02-07: coupons, books close, coupon 5.25, df 160/167, bp 134/182 |
| `Scenarios.R2032SecondExample` | src/test/java/bondpricer/BondPricerTest.java:235-263 | R2032 at 2024-05-16: coupons, books close, coupon 4.125, df 400/419, bp 137/183 |

## Findings

| source | as written | input that shows it | evidently intended | confidence | as-written member | corrected member |
|---|---|---|---|---|---|---|
| src/main/java/bondpricer/BondPricer.java:215 | `days / (DAYSINYEAR / FREQUENCY)` divides a `long` by an `int`, so the final-period broken period is the truncated quotient `days div 182` | R186 settled 2026-07-28: 146 days to maturity give broken period 0 and broken-period discount factor 1 (no discounting) | days / 182.5 = 0.8, factor 1 / 1.03 = 0.970873786, the values BondPricerTest.java:143-144 states | high; not executed | `Pricing.MoneyMarketBrokenPeriodTruncates` (on `MoneyMarketBrokenPeriodAsWritten`, which `BrokenPeriod` and so every price uses; see `Scenarios.R186FinalPeriodAt20260728` and `Scenarios.R186FinalPeriodPricesAt20260728`) | `Pricing.MoneyMarketBrokenPeriod` (used by `BrokenPeriodIntended`, positive in every final period by `BrokenPeriodBounds`; see `Pricing.FinalPeriodIsSimpleInterest`) |

## Left out

- The fractional power `Math.pow(discountFactor, brokenPeriod)` before the final period: Dafny has no real power with a real exponent, so it is the parameter `pow`; nothing is assumed about it.
- Rounding to five decimals (`Math.round(x * 10^5) / 10^5`) in `getAccruedInterest`, `getAllInPrice`, `getCleanPrice` and `getBondPrices`, and IEEE double error everywhere: prices are exact reals. `getCleanPrice` in the source rounds the already rounded all-in price a second time; the model has neither rounding.
- Pricer.BondPricer.GetAllInPrice: returns the exact all-in price, not the value rounded to five decimals; where the formula is non-finite it returns `NonFinite`, while Java's `Math.round` maps NaN (yield 0 or -200) to 0.0 and an infinity to ±9.223372036854776E13.
- Pricer.BondPricer.GetCleanPrice: returns the exact all-in price less the exact accrued interest, without either rounding; where the all-in price is non-finite it returns `NonFinite`, while Java rounds the all-in price to 0.0 (from NaN) or ±9.223372036854776E13 and returns that less the accrued interest, rounded, e.g. -1.89863 for R186 at 2005-08-26 and yield 0.
- Pricer.BondPricer.GetBondPrices: returns exact prices, without the rounding; where the formula is non-finite both are `NonFinite`, while Java returns the rounded finite pair, {-accruedInterest rounded, 0.0} for a NaN all-in price.
- The intended all-in price in the final period has no pricing function of its own: `BrokenPeriodIntended` gives the corrected broken period and `R186FinalPeriodPricesAt20260728` the corrected price at one date; `AllInPriceAt` and the class methods compute what the code computes.
- `getAccruedInterest` is a getter of the `accruedInterest` field plus rounding, so it has no member of its own.
- Non-finite doubles: a division by zero in the unrounded formula is the single outcome `NonFinite`; which of infinity or NaN the formula gives, and the finite value Java's `Math.round` then makes of it, are not modelled, and a NaN that `pow` would give for a negative discount factor is outside the model.
- The `(int)` cast of the rounded remaining-coupon count and the width of `long` day counts: the model uses unbounded integers, which agree for every date the two bonds can meet.
- The numeric price expectations of BondPricerTest (the exact comparisons of 131.64846 and 133.54709 at lines 182, 191 and 201-202, and the delta-5 ones at lines 231-232 and 261-262): they need the fractional power and so are not evaluated; the schedule facts and factors of those tests are, and one final-period price that needs no fractional power (`R186FinalPeriodPricesAt20260728`).
- Dates outside the year range of `java.time` (-999,999,999 to 999,999,999): `ValidDate` puts no bound on the year, so `NextCouponDate` of a settlement in year 999,999,999 after its second coupon yields a date in year 1,000,000,000, and `LastCouponDate` of a next coupon in the first month-day of year -999,999,999 yields one in year -1,000,000,000, where `MonthDay.atYear` throws `DateTimeException` and the constructor or `setSettlementDate` fails. The model has no exception path for this.
- Monotonicity of the price in the yield: beyond what the code states; only the discount factor is proved decreasing in the yield.
- Presentation: `toString`, the `bondName` field it prints, and the `HashMap` view of `getBondDetails` (which also passes `accruedInterest` as the unused discount-factor argument of `calculateBrokenPeriod`).
- Terms that break the schedule order of `WellFormed` are accepted by the functions (they only need `ValidTerms`) but the schedule lemmas say nothing about them.
