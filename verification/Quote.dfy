/**
 * packages/case-lifecycle/pricing/quote.ts: the one pricing decision per record, and the
 * conservation of allowances and credits over any sequence of decisions.
 */
module Quote {
  import opened Wrappers
  import opened PriceBook
  import A = Allowances
  import C = Credits
  import P = Promotions

  datatype PromoInput = PromoInput(firstReview: Option<P.FirstReview>, partnerCode: Option<string>, isFirstPaid: bool)

  /** What the buyer holds between quotes. */
  datatype Buyer = Buyer(allowance: Option<A.Ledger>, credits: Option<seq<C.Credit>>)

  datatype Request = Request(audience: Audience, bucket: Bucket, at: int, promo: Option<PromoInput>)

  datatype Refusals = Refusals(allowance: Option<A.Refusal>, credit: Option<C.Reason>, freeFirst: Option<P.FreeRefusal>)

  datatype Decision =
    | Pay(cents: int, listCents: int, sku: Sku, discountCents: Option<int>, promoCode: Option<string>,
          refusals: Refusals)
    | ByCredit(creditId: string, index: nat, credits: seq<C.Credit>, sku: Sku, refusals: Refusals)
    | ByAllowance(remaining: int, ledger: A.Ledger, sku: Sku)
    | Free(listCents: int, sku: Sku, refusals: Refusals)
    | QuoteFirst(from: int, sku: Sku)
    | Refused(sku: Sku, refusals: Refusals)

  function RungOf(b: Bucket): C.Rung
    requires b != B_LONG
  {
    if b == B_SHORT then C.SHORT else if b == B_STANDARD then C.STANDARD else C.EXTENDED
  }

  /** The allowance step: covered, or the reason it refused. */
  function TryAllowance(buyer: Buyer, r: Request): Option<A.Decrement> {
    if buyer.allowance.Some? then Some(A.DecrementAllowance(buyer.allowance.value, r.at)) else None
  }

  function TryCredit(buyer: Buyer, r: Request): Option<C.Outcome> {
    if buyer.credits.Some? && r.bucket != B_LONG
    then Some(C.ConsumeCredit(buyer.credits.value, RungOf(r.bucket), r.at)) else None
  }

  /** The paid steps: a free first review, a partner code, or the list price. */
  function PayFor(cents: int, sku: Sku, r: Request, a: Option<A.Refusal>, c: Option<C.Reason>): Decision {
    if r.audience == ATTORNEY && r.promo.Some? then
      match P.ApplyPromo(cents, r.promo.value.firstReview, r.promo.value.partnerCode, r.promo.value.isFirstPaid)
      case FreeFirst(list) => Free(list, sku, Refusals(a, c, None))
      case Partner(pay, list, discount, code, refused) =>
        Pay(pay, list, sku, Some(discount), Some(code), Refusals(a, c, Some(refused)))
      case NoPromo(pay, refused, _) => Pay(pay, pay, sku, None, None, Refusals(a, c, Some(refused)))
    else Pay(cents, cents, sku, None, None, Refusals(a, c, None))
  }

  /** `quoteForRecord`: quote, allowance, credit, free review, pay; each refused step leaves its reason. */
  function QuoteForRecord(rows: seq<PriceRow>, buyer: Buyer, r: Request): Decision {
    var price := PriceForBucket(rows, r.bucket, r.audience, r.at);
    if price.QuoteRequired? then QuoteFirst(price.from, price.sku)
    else
      var a := TryAllowance(buyer, r);
      if a.Some? && a.value.Covered? then ByAllowance(a.value.remaining, a.value.ledger, price.sku)
      else
        var aRefused := if a.Some? then Some(a.value.reason) else None;
        var c := TryCredit(buyer, r);
        if c.Some? && c.value.Spent?
        then ByCredit(c.value.credit.id, c.value.index, c.value.credits, price.sku, Refusals(aRefused, None, None))
        else
          var cRefused := if c.Some? then Some(c.value.reason) else None;
          if price.NoPrice? then Refused(price.sku, Refusals(aRefused, cRefused, None))
          else PayFor(price.cents, price.sku, r, aRefused, cRefused)
  }

  /** The returned ledger and credits carried forward. */
  function After(buyer: Buyer, d: Decision): Buyer {
    match d
    case ByAllowance(_, ledger, _) => Buyer(Some(ledger), buyer.credits)
    case ByCredit(_, _, credits, _, _) => Buyer(buyer.allowance, Some(credits))
    case _ => buyer
  }

  // ---- One decision ----

  function Used(b: Buyer): int {
    if b.allowance.Some? then b.allowance.value.used else 0
  }

  function SpentCredits(b: Buyer): int {
    if b.credits.Some? then C.SpentCount(b.credits.value) else 0
  }

  ghost predicate Sound(b: Buyer) {
    b.allowance.Some? ==> A.Sound(b.allowance.value)
  }

  predicate AllowanceCovers(b: Buyer, r: Request) {
    b.allowance.Some? && A.InPeriod(b.allowance.value, r.at) && b.allowance.value.used < b.allowance.value.granted
  }

  ghost predicate SomeCreditCovers(b: Buyer, r: Request) {
    r.bucket != B_LONG && b.credits.Some?
    && exists k :: 0 <= k < |b.credits.value| && C.Covers(b.credits.value[k], RungOf(r.bucket), r.at)
  }

  predicate LongForProfessional(r: Request) {
    r.audience != FAMILY && r.bucket == B_LONG
  }

  ghost predicate NothingPrepaid(b: Buyer, r: Request) {
    !LongForProfessional(r) && !AllowanceCovers(b, r) && !SomeCreditCovers(b, r)
  }

  predicate FreeReview(r: Request) {
    r.audience == ATTORNEY && r.promo.Some? && r.promo.value.firstReview.Some?
    && P.FreeRefused(r.promo.value.firstReview.value).None?
  }

  /** Precedence: which decision is taken depends on what could pay, in this order and no other. */
  lemma Precedence(rows: seq<PriceRow>, b: Buyer, r: Request)
    requires Sound(b) && NonNegative(rows)
    ensures var d := QuoteForRecord(rows, b, r);
            && (d.QuoteFirst? <==> LongForProfessional(r))
            && (d.ByAllowance? <==> !LongForProfessional(r) && AllowanceCovers(b, r))
            && (d.ByCredit? <==> !LongForProfessional(r) && !AllowanceCovers(b, r) && SomeCreditCovers(b, r))
            && (d.Refused? <==> NothingPrepaid(b, r) && PriceForBucket(rows, r.bucket, r.audience, r.at).NoPrice?)
            && (d.Free? <==>
                  NothingPrepaid(b, r) && PriceForBucket(rows, r.bucket, r.audience, r.at).Price? && FreeReview(r))
  {
    PriceIsFromBook(rows, r.bucket, r.audience, r.at);
    if b.allowance.Some? {
      A.DecrementLaw(b.allowance.value, r.at);
    }
    if b.credits.Some? && r.bucket != B_LONG {
      C.RefusalReason(b.credits.value, RungOf(r.bucket), r.at);
    }
  }

  /** A decision spends one allowance record, or one live credit of sufficient rung, or nothing. */
  lemma SpendsOneThing(rows: seq<PriceRow>, b: Buyer, r: Request)
    requires Sound(b)
    ensures var d := QuoteForRecord(rows, b, r); var b' := After(b, d);
            && Sound(b')
            && Used(b') == Used(b) + (if d.ByAllowance? then 1 else 0)
            && SpentCredits(b') == SpentCredits(b) + (if d.ByCredit? then 1 else 0)
            && (!d.ByAllowance? ==> b'.allowance == b.allowance)
            && (!d.ByCredit? ==> b'.credits == b.credits)
    ensures var d := QuoteForRecord(rows, b, r);
            d.ByCredit? ==>
              && r.bucket != B_LONG && b.credits.Some? && d.index < |b.credits.value| == |d.credits|
              && C.Covers(b.credits.value[d.index], RungOf(r.bucket), r.at)
              && b.credits.value[d.index].id == d.creditId && d.credits[d.index].consumedAt == Some(r.at)
              && forall j :: 0 <= j < |d.credits| && j != d.index ==> d.credits[j] == b.credits.value[j]
  {
    if b.allowance.Some? {
      A.DecrementLaw(b.allowance.value, r.at);
    }
    if b.credits.Some? && r.bucket != B_LONG && C.ConsumeCredit(b.credits.value, RungOf(r.bucket), r.at).Spent? {
      C.SpendsExactlyOne(b.credits.value, RungOf(r.bucket), r.at);
    }
  }

  /** A price to pay lies between nothing and the list price, and price plus discount is the list price. */
  lemma PayIsWithinList(rows: seq<PriceRow>, b: Buyer, r: Request)
    requires NonNegative(rows)
    ensures var d := QuoteForRecord(rows, b, r);
            d.Pay? ==> 0 <= d.cents <= d.listCents
                       && d.cents + (if d.discountCents.Some? then d.discountCents.value else 0) == d.listCents
  {
    PriceIsFromBook(rows, r.bucket, r.audience, r.at);
    var price := PriceForBucket(rows, r.bucket, r.audience, r.at);
    if price.Price? && r.promo.Some? {
      P.PartnerPrice(price.cents, r.promo.value.firstReview, r.promo.value.partnerCode, r.promo.value.isFirstPaid);
    }
  }

  // ---- A sequence of decisions ----

  function Quotes(rows: seq<PriceRow>, b: Buyer, requests: seq<Request>): Buyer {
    if requests == [] then b
    else
      var before := Quotes(rows, b, requests[..|requests| - 1]);
      After(before, QuoteForRecord(rows, before, requests[|requests| - 1]))
  }

  /** How many of the decisions an allowance, or a credit, paid for. */
  function Paid(rows: seq<PriceRow>, b: Buyer, requests: seq<Request>, byCredit: bool): nat {
    if requests == [] then 0
    else
      var n := |requests| - 1;
      var d := QuoteForRecord(rows, Quotes(rows, b, requests[..n]), requests[n]);
      Paid(rows, b, requests[..n], byCredit) + if (if byCredit then d.ByCredit? else d.ByAllowance?) then 1 else 0
  }

  /** Over any sequence of quotes: used and spent count the decisions they paid for, and used never passes granted. */
  lemma {:induction false} QuotesConserve(rows: seq<PriceRow>, b: Buyer, requests: seq<Request>)
    requires Sound(b)
    ensures var e := Quotes(rows, b, requests);
            Sound(e) && Used(e) == Used(b) + Paid(rows, b, requests, false)
            && SpentCredits(e) == SpentCredits(b) + Paid(rows, b, requests, true)
  {
    if requests != [] {
      var n := |requests| - 1;
      QuotesConserve(rows, b, requests[..n]);
      SpendsOneThing(rows, Quotes(rows, b, requests[..n]), requests[n]);
    }
  }

  /** A professional's long records never spend anything. */
  lemma {:induction false} LongRecordsSpendNothing(rows: seq<PriceRow>, b: Buyer, requests: seq<Request>)
    requires Sound(b) && NonNegative(rows) && forall k :: 0 <= k < |requests| ==> LongForProfessional(requests[k])
    ensures Quotes(rows, b, requests) == b
  {
    if requests != [] {
      var n := |requests| - 1;
      LongRecordsSpendNothing(rows, b, requests[..n]);
      Precedence(rows, b, requests[n]);
    }
  }

  // ---- What a decision says ----

  /** The rung a record needs, by rank: the ladder's own order. */
  lemma RungRanks()
    ensures C.Rank(RungOf(B_SHORT)) == 0 && C.Rank(RungOf(B_STANDARD)) == 1 && C.Rank(RungOf(B_EXTENDED)) == 2
  {
  }

  function RefusalsOf(d: Decision): Refusals {
    match d
    case Pay(_, _, _, _, _, r) => r
    case ByCredit(_, _, _, _, r) => r
    case Free(_, _, r) => r
    case Refused(_, r) => r
    case _ => Refusals(None, None, None)
  }

  /** Each refused step leaves its reason: the allowance's and the credits' whenever they were held and asked. */
  lemma RefusalsCarried(rows: seq<PriceRow>, b: Buyer, r: Request)
    ensures var d := QuoteForRecord(rows, b, r); var told := RefusalsOf(d);
            !d.QuoteFirst? && !d.ByAllowance? ==>
              && (told.allowance.Some? <==> b.allowance.Some?)
              && (told.allowance.Some? ==> A.DecrementAllowance(b.allowance.value, r.at).reason == told.allowance.value)
              && (told.credit.Some? <==> b.credits.Some? && r.bucket != B_LONG && !d.ByCredit?)
              && (told.credit.Some? ==>
                    C.ConsumeCredit(b.credits.value, RungOf(r.bucket), r.at) == C.Refused(told.credit.value))
              && (told.freeFirst.Some? <==> d.Pay? && r.audience == ATTORNEY && r.promo.Some?)
  {
  }

  /** What is paid for: the SKU of the record, at the list price of the row in effect; the code spent is the buyer's. */
  lemma PaysListPrice(rows: seq<PriceRow>, b: Buyer, r: Request)
    ensures var d := QuoteForRecord(rows, b, r);
            && Buys(d.sku, r.bucket, r.audience)
            && (d.Pay? ==> exists k :: Resolves(rows, r.audience, d.sku, r.at, k) && rows[k].cents == d.listCents)
            && (d.Free? ==> exists k :: Resolves(rows, r.audience, d.sku, r.at, k) && rows[k].cents == d.listCents)
            && (d.Pay? && d.promoCode.Some? ==>
                  && d.discountCents.Some? && r.promo.Some? && r.audience == ATTORNEY && r.promo.value.isFirstPaid
                  && d.promoCode == r.promo.value.partnerCode)
            && (d.Pay? && d.promoCode.None? ==> d.cents == d.listCents)
  {
    PriceExactly(rows, r.bucket, r.audience, r.at);
  }

  /** A partner code is honoured whenever it can be: the discount is given unless nothing allows it. */
  lemma PartnerHonoured(rows: seq<PriceRow>, b: Buyer, r: Request)
    ensures var d := QuoteForRecord(rows, b, r);
            d.Pay? ==> (d.promoCode.Some? <==>
              && r.audience == ATTORNEY && r.promo.Some? && r.promo.value.isFirstPaid && d.listCents > 0
              && r.promo.value.partnerCode.Some? && r.promo.value.partnerCode.value != "")
  {
  }
}
