/** packages/case-lifecycle/pricing/price-book.ts: dated price rows and their resolution. */
module PriceBook {
  import opened Wrappers

  datatype Audience = FAMILY | ATTORNEY | OFFICE_BUYER | CLINIC

  datatype Sku = REVIEW | COUNSEL_SHORT | COUNSEL_STANDARD | COUNSEL_EXTENDED | COUNSEL_LONG | OtherSku(name: string)

  datatype Bucket = B_SHORT | B_STANDARD | B_EXTENDED | B_LONG

  datatype PriceRow = PriceRow(audience: Audience, sku: Sku, cents: int, effectiveFrom: int,
                               effectiveTo: Option<int>, purchasable: bool)

  const LONG_RECORD_QUOTE_FROM_CENTS := 49900

  predicate InEffect(r: PriceRow, audience: Audience, sku: Sku, t: int) {
    r.audience == audience && r.sku == sku && r.effectiveFrom <= t && (r.effectiveTo.Some? ==> t < r.effectiveTo.value)
  }

  /** Row `k` is in effect, supersedes every other row in effect, and comes first among equals. */
  ghost predicate Resolves(rows: seq<PriceRow>, audience: Audience, sku: Sku, t: int, k: int) {
    && 0 <= k < |rows| && InEffect(rows[k], audience, sku, t)
    && forall j :: 0 <= j < |rows| && InEffect(rows[j], audience, sku, t) ==>
         rows[j].effectiveFrom <= rows[k].effectiveFrom && (rows[j].effectiveFrom == rows[k].effectiveFrom ==> k <= j)
  }

  /** The resolving row, found from the end of the book. */
  function Resolve(rows: seq<PriceRow>, audience: Audience, sku: Sku, t: int): Option<PriceRow> {
    if rows == [] then None
    else
      var n := |rows| - 1;
      var best := Resolve(rows[..n], audience, sku, t);
      if InEffect(rows[n], audience, sku, t) && (best.None? || rows[n].effectiveFrom > best.value.effectiveFrom)
      then Some(rows[n]) else best
  }

  /** The latest row in effect supersedes its predecessors; None exactly when no row is in effect. */
  lemma {:induction false} ResolveSpec(rows: seq<PriceRow>, audience: Audience, sku: Sku, t: int)
    ensures var r := Resolve(rows, audience, sku, t);
            if r.None? then forall j :: 0 <= j < |rows| ==> !InEffect(rows[j], audience, sku, t)
            else exists k :: Resolves(rows, audience, sku, t, k) && rows[k] == r.value
  {
    if rows != [] {
      var n := |rows| - 1;
      ResolveSpec(rows[..n], audience, sku, t);
      var best := Resolve(rows[..n], audience, sku, t);
      if InEffect(rows[n], audience, sku, t) && (best.None? || rows[n].effectiveFrom > best.value.effectiveFrom) {
        assert Resolves(rows, audience, sku, t, n);
      } else if best.Some? {
        var k :| Resolves(rows[..n], audience, sku, t, k) && rows[..n][k] == best.value;
        assert Resolves(rows, audience, sku, t, k);
      }
    }
  }

  /** `resolvePrice`: one pass keeping the best row so far. */
  method ResolvePrice(rows: seq<PriceRow>, audience: Audience, sku: Sku, t: int) returns (best: Option<PriceRow>)
    ensures best == Resolve(rows, audience, sku, t)
    ensures best.Some? ==> exists k :: Resolves(rows, audience, sku, t, k) && rows[k] == best.value
  {
    best := None;
    for k := 0 to |rows|
      invariant best == Resolve(rows[..k], audience, sku, t)
    {
      assert rows[..k + 1][..k] == rows[..k];
      var row := rows[k];
      if row.audience != audience || row.sku != sku {
        continue;
      }
      if row.effectiveFrom > t {
        continue;
      }
      if row.effectiveTo.Some? && row.effectiveTo.value <= t {
        continue;
      }
      if best.None? || row.effectiveFrom > best.value.effectiveFrom {
        best := Some(row);
      }
    }
    assert rows[..|rows|] == rows;
    ResolveSpec(rows, audience, sku, t);
  }

  datatype BucketPrice = Price(sku: Sku, cents: int) | QuoteRequired(from: int, sku: Sku) | NoPrice(sku: Sku)

  function SkuFor(b: Bucket): Sku {
    match b
    case B_SHORT => COUNSEL_SHORT
    case B_STANDARD => COUNSEL_STANDARD
    case B_EXTENDED => COUNSEL_EXTENDED
    case B_LONG => COUNSEL_LONG
  }

  /** `priceForBucket`. */
  function PriceForBucket(rows: seq<PriceRow>, bucket: Bucket, audience: Audience, t: int): BucketPrice {
    if audience == FAMILY then
      var row := Resolve(rows, FAMILY, REVIEW, t);
      if row.Some? then Price(REVIEW, row.value.cents) else NoPrice(REVIEW)
    else if bucket == B_LONG then
      var own := Resolve(rows, audience, COUNSEL_LONG, t);
      var floor := if own.Some? then own else Resolve(rows, ATTORNEY, COUNSEL_LONG, t);
      QuoteRequired(if floor.Some? then floor.value.cents else LONG_RECORD_QUOTE_FROM_CENTS, COUNSEL_LONG)
    else
      var row := Resolve(rows, audience, SkuFor(bucket), t);
      if row.None? || !row.value.purchasable then NoPrice(SkuFor(bucket)) else Price(SkuFor(bucket), row.value.cents)
  }

  ghost predicate NonNegative(rows: seq<PriceRow>) {
    forall k :: 0 <= k < |rows| ==> rows[k].cents >= 0
  }

  lemma PriceIsFromBook(rows: seq<PriceRow>, bucket: Bucket, audience: Audience, t: int)
    requires NonNegative(rows)
    ensures var p := PriceForBucket(rows, bucket, audience, t);
            (p.Price? ==> p.cents >= 0) && (p.QuoteRequired? <==> audience != FAMILY && bucket == B_LONG)
  {
    ResolveSpec(rows, audience, if audience == FAMILY then REVIEW else SkuFor(bucket), t);
  }

  /** The counsel ladder's SKU of a record, and a family's flat one. */
  predicate Buys(sku: Sku, bucket: Bucket, audience: Audience) {
    if audience == FAMILY then sku == REVIEW
    else
      || (bucket == B_SHORT && sku == COUNSEL_SHORT) || (bucket == B_STANDARD && sku == COUNSEL_STANDARD)
      || (bucket == B_EXTENDED && sku == COUNSEL_EXTENDED) || (bucket == B_LONG && sku == COUNSEL_LONG)
  }

  /**
   * A price is that of the row in effect for the audience and its SKU, for professionals a
   * purchasable one; a long record is quoted from its own row, else from the attorneys', else
   * from $499.
   */
  lemma PriceExactly(rows: seq<PriceRow>, bucket: Bucket, audience: Audience, t: int)
    ensures var p := PriceForBucket(rows, bucket, audience, t);
            && Buys(p.sku, bucket, audience)
            && (p.Price? ==> exists k :: Resolves(rows, audience, p.sku, t, k) && rows[k].cents == p.cents
                                         && (audience == FAMILY || rows[k].purchasable))
            && (p.NoPrice? ==>
                  forall k :: Resolves(rows, audience, p.sku, t, k) ==> audience != FAMILY && !rows[k].purchasable)
            && (p.QuoteRequired? ==>
                  || (exists k :: Resolves(rows, audience, COUNSEL_LONG, t, k) && rows[k].cents == p.from)
                  || (NoRow(rows, audience, t)
                      && exists k :: Resolves(rows, ATTORNEY, COUNSEL_LONG, t, k) && rows[k].cents == p.from)
                  || (NoRow(rows, audience, t) && NoRow(rows, ATTORNEY, t) && p.from == 49900))
  {
    var sku := if audience == FAMILY then REVIEW else SkuFor(bucket);
    ResolveSpec(rows, audience, sku, t);
    ResolveSpec(rows, ATTORNEY, COUNSEL_LONG, t);
    forall j, k | Resolves(rows, audience, sku, t, j) && Resolves(rows, audience, sku, t, k)
      ensures j == k
    {
      ResolvesOnce(rows, audience, sku, t, j, k);
    }
  }

  ghost predicate NoRow(rows: seq<PriceRow>, audience: Audience, t: int) {
    forall k :: 0 <= k < |rows| ==> !InEffect(rows[k], audience, COUNSEL_LONG, t)
  }

  lemma ResolvesOnce(rows: seq<PriceRow>, audience: Audience, sku: Sku, t: int, j: int, k: int)
    requires Resolves(rows, audience, sku, t, j) && Resolves(rows, audience, sku, t, k)
    ensures j == k
  {
  }

  /** A row is in effect from its first instant up to, not including, its last. */
  lemma InEffectExactly(r: PriceRow, t: int)
    ensures InEffect(r, r.audience, r.sku, t) <==>
              r.effectiveFrom <= t && (r.effectiveTo == None || t < r.effectiveTo.value)
  {
  }
}
