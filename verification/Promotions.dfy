/** packages/case-lifecycle/pricing/promotions.ts: the free first review and the partner code. */
module Promotions {
  import opened Wrappers

  const FIRST_REVIEW_FREE_MAX_PAGES := 500
  const PARTNER_CODE_DISCOUNT_PERCENT := 15

  datatype FirstReview = FirstReview(barVerified: bool, meteredPages: int, priorPaidReviews: int, priorFreeReviews: int,
                                     monthRedemptions: int, monthCap: int)

  datatype FreeRefusal = BAR_NOT_VERIFIED | TOO_MANY_PAGES | NOT_FIRST_REVIEW | MONTH_CAP_REACHED | NOT_OFFERED

  datatype PartnerRefusal = NO_CODE | NOT_FIRST_PAID | NOTHING_TO_DISCOUNT

  /** `firstReviewFree`: None when eligible. */
  function FreeRefused(f: FirstReview): Option<FreeRefusal> {
    if !f.barVerified then Some(BAR_NOT_VERIFIED)
    else if f.meteredPages > FIRST_REVIEW_FREE_MAX_PAGES then Some(TOO_MANY_PAGES)
    else if f.priorPaidReviews > 0 || f.priorFreeReviews > 0 then Some(NOT_FIRST_REVIEW)
    else if f.monthRedemptions >= f.monthCap then Some(MONTH_CAP_REACHED)
    else None
  }

  /** `Math.round` of a hundredth: the floor of x + 1/2. */
  function RoundPercent(cents: int, percent: int): int {
    (2 * cents * percent + 100) / 200
  }

  datatype Promo = FreeFirst(listCents: int)
                 | Partner(cents: int, listCents: int, discountCents: int, code: string, freeRefused: FreeRefusal)
                 | NoPromo(cents: int, freeRefused: FreeRefusal, partnerRefused: PartnerRefusal)

  /** `partnerCodeDiscount`'s refusals; an empty code is none. */
  function PartnerRefused(code: Option<string>, isFirstPaid: bool, cents: int): Option<PartnerRefusal> {
    if code.None? || code.value == "" then Some(NO_CODE)
    else if !isFirstPaid then Some(NOT_FIRST_PAID)
    else if cents <= 0 then Some(NOTHING_TO_DISCOUNT)
    else None
  }

  /** `applyPromo`: a free first review, else the partner code, else the list price. */
  function ApplyPromo(cents: int, firstReview: Option<FirstReview>, code: Option<string>, isFirstPaid: bool): Promo {
    var free := if firstReview.Some? then FreeRefused(firstReview.value) else Some(NOT_OFFERED);
    var partner := PartnerRefused(code, isFirstPaid, cents);
    if free.None? then FreeFirst(cents)
    else if partner.Some? then NoPromo(cents, free.value, partner.value)
    else
      var discount := RoundPercent(cents, PARTNER_CODE_DISCOUNT_PERCENT);
      Partner(cents - discount, cents, discount, code.value, free.value)
  }

  /** A partner price is within the list price, and price plus discount is the list price. */
  lemma PartnerPrice(cents: int, firstReview: Option<FirstReview>, code: Option<string>, isFirstPaid: bool)
    ensures var p := ApplyPromo(cents, firstReview, code, isFirstPaid);
            p.Partner? ==> 0 < p.cents <= p.listCents == cents && p.cents + p.discountCents == p.listCents
                           && 200 * p.discountCents - 100 <= 30 * cents < 200 * p.discountCents + 100
  {
  }

  /** Free exactly for a verified bar number, up to 500 pages, no review before, under the month's cap. */
  lemma FreeExactly(f: FirstReview)
    ensures FreeRefused(f).None? <==>
              && f.barVerified && f.meteredPages <= 500 && f.priorPaidReviews <= 0 && f.priorFreeReviews <= 0
              && f.monthRedemptions < f.monthCap
    ensures FreeRefused(f) == Some(BAR_NOT_VERIFIED) <==> !f.barVerified
    ensures FreeRefused(f) == Some(TOO_MANY_PAGES) <==> f.barVerified && f.meteredPages > 500
    ensures FreeRefused(f) == Some(MONTH_CAP_REACHED) ==> f.priorPaidReviews <= 0 && f.priorFreeReviews <= 0
    ensures FreeRefused(f) != Some(NOT_OFFERED)
  {
  }

  /** Precedence: a free review when it is due; else the partner code on a first paid review with a price; else none. */
  lemma PromoExactly(cents: int, firstReview: Option<FirstReview>, code: Option<string>, isFirstPaid: bool)
    ensures var p := ApplyPromo(cents, firstReview, code, isFirstPaid);
            var free := firstReview.Some? && FreeRefused(firstReview.value).None?;
            var partner := code.Some? && code.value != "" && isFirstPaid && cents > 0;
            && (p.FreeFirst? <==> free) && (p.FreeFirst? ==> p.listCents == cents)
            && (p.Partner? <==> !free && partner) && (p.Partner? ==> Some(p.code) == code)
            && (p.NoPromo? ==> p.cents == cents)
            && (p.NoPromo? && p.partnerRefused == NO_CODE <==> p.NoPromo? && (code.None? || code.value == ""))
            && (p.NoPromo? && p.partnerRefused == NOTHING_TO_DISCOUNT ==> cents <= 0 && isFirstPaid)
            && (!p.FreeFirst? ==> p.freeRefused == if firstReview.None? then NOT_OFFERED
                                                   else FreeRefused(firstReview.value).value)
  {
  }
}
