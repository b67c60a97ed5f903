/**
 * Pricing token facts in whole micro-dollars. Prices are dollars per million tokens, scaled by a
 * million to integers; only the exact integer path is modelled.
 */
module Pricing {
  import opened Common
  import opened Cells
  import opened Facts

  const PRICE_SCALE: int := 1_000_000
  const PRICE_HALF: int := 500_000

  /** The product of a count and a scaled price stays a safe integer with room for the rounding step. */
  predicate OnIntegerPath(tokens: nat, price: nat) {
    tokens * price <= MAX - PRICE_HALF
  }

  /** `priceKind` on the integer path. */
  function PriceKind(tokens: nat, price: nat): (amount: nat)
    requires OnIntegerPath(tokens, price)
  {
    (tokens * price + PRICE_HALF) / PRICE_SCALE
  }

  /** An amount is the price of a count exactly when it is the nearest integer, a tie going up. */
  lemma PricedExactlyWhen(tokens: nat, price: nat, amount: int)
    requires OnIntegerPath(tokens, price)
    ensures amount == PriceKind(tokens, price) <==> -PRICE_HALF < PRICE_SCALE * amount - tokens * price <= PRICE_HALF
  {
    Nearest(tokens * price, amount);
  }

  lemma Nearest(product: nat, amount: int)
    ensures amount == (product + PRICE_HALF) / PRICE_SCALE
            <==> -PRICE_HALF < PRICE_SCALE * amount - product <= PRICE_HALF
  {
    var q := (product + PRICE_HALF) / PRICE_SCALE;
    assert PRICE_SCALE * q <= product + PRICE_HALF < PRICE_SCALE * q + PRICE_SCALE;
  }

  /** More tokens never cost less. */
  lemma PricedMonotonely(a: nat, b: nat, price: nat)
    requires a <= b && OnIntegerPath(b, price)
    ensures OnIntegerPath(a, price) && PriceKind(a, price) <= PriceKind(b, price)
  {
    Products(a, b - a, price);
    PricedExactlyWhen(a, price, PriceKind(a, price));
    PricedExactlyWhen(b, price, PriceKind(b, price));
  }

  /** Pricing a count in two parts moves the total by at most one micro-dollar, either way. */
  lemma SplitCostsAtMostOne(a: nat, b: nat, price: nat)
    requires OnIntegerPath(a + b, price)
    ensures OnIntegerPath(a, price) && OnIntegerPath(b, price)
    ensures -1 <= PriceKind(a, price) + PriceKind(b, price) - PriceKind(a + b, price) <= 1
  {
    Products(a, b, price);
    PricedExactlyWhen(a, price, PriceKind(a, price));
    PricedExactlyWhen(b, price, PriceKind(b, price));
    PricedExactlyWhen(a + b, price, PriceKind(a + b, price));
  }

  lemma Products(a: nat, b: nat, price: nat)
    ensures (a + b) * price == a * price + b * price && a * price >= 0 && b * price >= 0
  {
  }

  // ---------------------------------------------------------------- the spend of one attempt

  /** `resolvePrice`: scaled prices of a deployment that publishes at least one. */
  datatype Price = Price(perMillionIn: Option<nat>, perMillionOut: Option<nat>, published: bool)

  /** The facts a spend looks at. */
  datatype Counts = Counts(
    input: Option<Counter>, output: Option<Counter>, cachedInput: Option<Counter>,
    cacheCreation: Option<Counter>, cacheRead: Option<Counter>, estimatedInput: Option<Counter>)

  predicate Kept(p: Price) {
    p.perMillionIn.Some? || p.perMillionOut.Some?
  }

  predicate Reported(c: Counts) {
    c.input.Some? || c.output.Some?
  }

  /** Cached tokens the provider counts inside its input; a figure above the input is malformed. */
  function CachedInside(c: Counts): Option<Counter> {
    if c.input.Some? && Positive(c.cachedInput).Some? && c.cachedInput.value <= c.input.value then c.cachedInput
      else None
  }

  /** Every product this spend takes stays on the integer path. */
  predicate ExactlyPriced(p: Price, c: Counts) {
    && (c.input.Some? && p.perMillionIn.Some? ==> OnIntegerPath(c.input.value, p.perMillionIn.value))
    && (c.output.Some? && p.perMillionOut.Some? ==> OnIntegerPath(c.output.value, p.perMillionOut.value))
    && (c.estimatedInput.Some? && p.perMillionIn.Some? ==> OnIntegerPath(c.estimatedInput.value, p.perMillionIn.value))
  }

  /** An amount is a cost rounded to the nearest micro-dollar; it vanishes below half of one. */
  predicate Rounds(amount: int, cost: nat) {
    && -PRICE_HALF < PRICE_SCALE * amount - cost <= PRICE_HALF
    && 0 <= 2 * amount <= MAX && (amount == 0 <==> 2 * cost < PRICE_SCALE)
  }

  /** One kind's share of a spend: nothing for a kind without a count or a price. */
  method PriceShare(tokens: Option<nat>, price: Option<nat>) returns (amount: nat, unpriced: bool)
    requires tokens.Some? && price.Some? ==> OnIntegerPath(tokens.value, price.value)
    ensures Rounds(amount, Cost(if tokens.Some? then tokens.value else 0, price))
    ensures unpriced <==> tokens.Some? && price.None?
  {
    amount, unpriced := 0, false;
    if tokens.Some? {
      if price.None? {
        unpriced := true;
      } else {
        PricedExactlyWhen(tokens.value, price.value, PriceKind(tokens.value, price.value));
        amount := PriceKind(tokens.value, price.value);
      }
    }
  }

  /** `computeAccountingSpend`. */
  method ComputeSpend(price: Option<Price>, c: Counts, endedAt: int) returns (spend: Option<SpendRecord>)
    requires price.Some? ==> Kept(price.value) && ExactlyPriced(price.value, c)
    ensures spend.Some? ==> price.Some? && SpendOf(price.value, c, endedAt, spend.value)
    ensures spend.None? <==> price.None? || Unpriced(price.value, c)
  {
    hide OnIntegerPath, PriceKind, Cost;
    if price.None? { return None; }
    var p := price.value;
    if c.input.Some? || c.output.Some? {
      var cacheRead, cacheCreation, cachedInput, partial := None, None, None, false;
      if c.cacheRead.Some? && c.cacheRead.value > 0 { cacheRead, partial := c.cacheRead, true; }
      if c.cacheCreation.Some? && c.cacheCreation.value > 0 { cacheCreation, partial := c.cacheCreation, true; }
      if c.cachedInput.Some? && c.cachedInput.value > 0 && c.input.Some? && c.cachedInput.value <= c.input.value {
        cachedInput, partial := c.cachedInput, true;
      }
      var billable: Option<nat> := None;
      if c.input.Some? {
        billable := Some(if cachedInput.Some? then c.input.value - cachedInput.value else c.input.value);
        if p.perMillionIn.Some? { LessIsOnPath(billable.value, c.input.value, p.perMillionIn.value); }
      }
      var forInput, inputUnpriced := PriceShare(billable, p.perMillionIn);
      var forOutput, outputUnpriced := PriceShare(c.output, p.perMillionOut);
      partial := partial || inputUnpriced || outputUnpriced;
      var amount := forInput + forOutput;
      if amount == 0 && !partial { return None; }
      return Some(SpendRecord(amount, p.published, true, if partial then PartlyPriced else Full,
                              cacheRead, cacheCreation, cachedInput, p.perMillionIn, p.perMillionOut, endedAt));
    }
    if c.estimatedInput.None? || p.perMillionIn.None? { return None; }
    var amount, unpriced := PriceShare(c.estimatedInput, p.perMillionIn);
    if amount == 0 { return None; }
    return Some(SpendRecord(amount, p.published, false, InputOnly, None, None, None, p.perMillionIn, p.perMillionOut,
                            endedAt));
  }

  lemma LessIsOnPath(a: nat, b: nat, price: nat)
    requires a <= b && OnIntegerPath(b, price)
    ensures OnIntegerPath(a, price)
  {
    Products(a, b - a, price);
  }

  // ---------------------------------------------------------------- what a spend means

  /** Reported input tokens that are billed: the input less what was cached inside it. */
  function Billed(c: Counts): (n: nat)
    ensures c.input.Some? ==> n + (if CachedInside(c).Some? then CachedInside(c).value else 0) == c.input.value
  {
    if c.input.None? then 0
    else if CachedInside(c).Some? then c.input.value - CachedInside(c).value
    else c.input.value
  }

  /** A kind's exact cost, in millionths of a micro-dollar; nothing without a count or a price. */
  function Cost(tokens: nat, price: Option<nat>): nat {
    if price.Some? then tokens * price.value else 0
  }

  function Exact(p: Price, c: Counts): nat {
    if Reported(c) then
      Cost(Billed(c), p.perMillionIn) + Cost(if c.output.Some? then c.output.value else 0, p.perMillionOut)
    else Cost(if c.estimatedInput.Some? then c.estimatedInput.value else 0, p.perMillionIn)
  }

  /** Some reported tokens carry no price: cached ones, or a kind the deployment does not price. */
  predicate LeavesOut(p: Price, c: Counts) {
    || Positive(c.cacheRead).Some? || Positive(c.cacheCreation).Some? || CachedInside(c).Some?
    || (c.input.Some? && p.perMillionIn.None?) || (c.output.Some? && p.perMillionOut.None?)
  }

  /**
   * The record: the amount is within one micro-dollar of the exact cost of what was billed, the
   * tokens left unpriced are named beside it, and the coverage says whether there were any.
   */
  predicate SpendOf(p: Price, c: Counts, endedAt: int, s: SpendRecord) {
    && -PRICE_SCALE < PRICE_SCALE * s.amount - Exact(p, c) <= PRICE_SCALE
    && s.published == p.published && s.priceIn == p.perMillionIn && s.priceOut == p.perMillionOut
      && s.observedAt == endedAt
    && s.reported == Reported(c)
    && (if Reported(c)
        then && s.coverage == (if LeavesOut(p, c) then PartlyPriced else Full)
             && s.cacheRead == Positive(c.cacheRead) && s.cacheCreation == Positive(c.cacheCreation)
             && s.cachedInput == CachedInside(c)
        else && s.coverage == InputOnly && s.amount > 0
             && s.cacheRead.None? && s.cacheCreation.None? && s.cachedInput.None?)
  }

  /** There is nothing to say about money: every kind rounds to nothing and none was left out. */
  predicate Unpriced(p: Price, c: Counts) {
    if Reported(c)
    then && !LeavesOut(p, c)
         && 2 * Cost(Billed(c), p.perMillionIn) < PRICE_SCALE
         && 2 * Cost(if c.output.Some? then c.output.value else 0, p.perMillionOut) < PRICE_SCALE
    else || c.estimatedInput.None? || p.perMillionIn.None?
         || 2 * Cost(c.estimatedInput.value, p.perMillionIn) < PRICE_SCALE
  }

  /** Reported input is conserved: what was billed and what was recorded as cached add up to it. */
  lemma InputConserved(p: Price, c: Counts, endedAt: int, s: SpendRecord)
    requires SpendOf(p, c, endedAt, s) && c.input.Some?
    ensures Billed(c) + (if s.cachedInput.Some? then s.cachedInput.value else 0) == c.input.value
  {
  }
}
