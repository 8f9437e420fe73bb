/** Discounts, promotion codes and the redemption ledger: `redeem_discount`, `is_redeemable`, `applies_to_price`,
    `calculate_amount_cents`. */
module Discounts {
  import opened Prelude
  import opened Catalog

  datatype DiscountType = Percent | Fixed | Free

  /** `basisPoints` is percent_off with its two decimals; the codes of plans and projects stand for the many-to-many
      rows. */
  datatype Discount = Discount(
    discountType: DiscountType, basisPoints: Option<int>, amountOffCents: Option<nat>,
    maxRedemptions: Option<nat>, redeemedCount: nat,
    appliesToPlans: set<string>, appliesToProjects: set<string>,
    startsAt: Option<int>, expiresAt: Option<int>, isActive: bool
  )

  datatype Promotion = Promotion(
    discount: string, organization: Option<nat>, isActive: bool,
    maxRedemptions: Option<nat>, redeemedCount: nat, expiresAt: Option<int>
  )

  datatype Customer = Customer(id: nat, organization: Option<nat>)

  datatype Redemption = Redemption(
    discount: string, promotion: Option<string>, customer: nat, price: string, idempotencyKey: string,
    originalCents: nat, discountCents: nat, finalCents: nat
  )

  datatype Ledger = Ledger(discounts: map<string, Discount>, promotions: map<string, Promotion>, rows: seq<Redemption>)

  // ---------------------------------------------------------------- rules of one discount

  predicate Expired(at: Option<int>, now: int) {
    at.Some? && now >= at.value
  }

  predicate Exhausted(cap: Option<nat>, count: nat) {
    cap.Some? && count >= cap.value
  }

  predicate DiscountRedeemable(d: Discount, now: int) {
    && d.isActive
    && !(d.startsAt.Some? && now < d.startsAt.value)
    && !Expired(d.expiresAt, now)
    && !Exhausted(d.maxRedemptions, d.redeemedCount)
  }

  predicate PromotionRedeemable(p: Promotion, d: Discount, now: int) {
    p.isActive && DiscountRedeemable(d, now) && !Expired(p.expiresAt, now) &&
      !Exhausted(p.maxRedemptions, p.redeemedCount)
  }

  predicate AppliesToPrice(d: Discount, price: Price) {
    && (d.appliesToPlans != {} ==> price.plan.code in d.appliesToPlans)
    && (d.appliesToProjects != {} ==> price.plan.project.Some? && price.plan.project.value in d.appliesToProjects)
  }

  /** Python's `int()` on a quotient: towards zero. */
  function Truncated(numerator: int, denominator: int): int
    requires denominator > 0
  {
    if numerator >= 0 then numerator / denominator else -(-numerator / denominator)
  }

  function CalculateAmount(d: Discount, amount: nat): int {
    match d.discountType
    case Free => amount
    case Fixed => Min(d.amountOffCents.GetOr(0), amount)
    case Percent => Truncated(amount * d.basisPoints.GetOr(0), 10000)
  }

  /** The redeemed amount and the final amount split the original one. */
  predicate Splits(original: nat, discounted: int, final: int) {
    discounted + final == original && 0 <= final <= original
  }

  lemma PercentAtMostAmount(amount: nat, basisPoints: nat)
    requires basisPoints <= 10000
    ensures 0 <= amount * basisPoints / 10000 <= amount
  {
    assert amount * basisPoints <= amount * 10000;
  }

  /** Every amount splits exactly when a percent discount takes between 0 and 100 percent. */
  lemma AmountsSplitExactlyUpTo100Percent(d: Discount)
    ensures (forall amount: nat :: Splits(amount, CalculateAmount(d, amount),
                                          Max(amount - CalculateAmount(d, amount), 0))) <==>
            (d.discountType == Percent ==> 0 <= d.basisPoints.GetOr(0) <= 10000)
  {
    var bp := d.basisPoints.GetOr(0);
    if d.discountType == Percent && !(0 <= bp <= 10000) {
      var amount: nat := 10000;
      assert CalculateAmount(d, amount) == bp by {
        assert 10000 * bp / 10000 == bp && 10000 * -bp / 10000 == -bp;
      }
      assert !Splits(amount, CalculateAmount(d, amount), Max(amount - CalculateAmount(d, amount), 0));
    } else if d.discountType == Percent {
      forall amount: nat
        ensures Splits(amount, CalculateAmount(d, amount), Max(amount - CalculateAmount(d, amount), 0))
      {
        PercentAtMostAmount(amount, bp);
        assert amount * bp >= 0;
      }
    }
  }

  // ---------------------------------------------------------------- redeeming

  predicate SameTriple(r: Redemption, customer: nat, discount: string, key: string) {
    r.customer == customer && r.discount == discount && r.idempotencyKey == key
  }

  function FindRow(rows: seq<Redemption>, customer: nat, discount: string, key: string): Option<Redemption> {
    if rows == [] then None
    else if SameTriple(rows[|rows| - 1], customer, discount, key) then Some(rows[|rows| - 1])
    else FindRow(rows[..|rows| - 1], customer, discount, key)
  }

  datatype Error =
    NoSuchCode | WrongOrganization | NotRedeemable | DoesNotApply | DuplicateRow | NegativeAmount

  datatype Request = Request(customer: Customer, price: Price, promotionCode: string, discountCode: string, key: string)

  /** The checks before the ledger is touched: the code of the discount that would be redeemed, or the error raised. */
  function Validated(s: Ledger, q: Request, now: int): Result<string, Error> {
    if q.promotionCode != "" then
      if q.promotionCode !in s.promotions || !s.promotions[q.promotionCode].isActive then Raised(NoSuchCode)
      else
        var p := s.promotions[q.promotionCode];
        if p.discount !in s.discounts then Raised(NoSuchCode)
        else if p.organization.Some? && q.customer.organization.Some? && p.organization != q.customer.organization
        then Raised(WrongOrganization)
        else if !PromotionRedeemable(p, s.discounts[p.discount], now) then Raised(NotRedeemable)
        else if !AppliesToPrice(s.discounts[p.discount], q.price) then Raised(DoesNotApply)
        else Ok(p.discount)
    else
      if q.discountCode !in s.discounts || !s.discounts[q.discountCode].isActive then Raised(NoSuchCode)
      else if !DiscountRedeemable(s.discounts[q.discountCode], now) then Raised(NotRedeemable)
      else if !AppliesToPrice(s.discounts[q.discountCode], q.price) then Raised(DoesNotApply)
      else Ok(q.discountCode)
  }

  function PromotionOf(q: Request): Option<string> {
    if q.promotionCode != "" then Some(q.promotionCode) else None
  }

  function NewRow(s: Ledger, q: Request, code: string): Redemption
    requires code in s.discounts && CalculateAmount(s.discounts[code], q.price.amountCents) >= 0
  {
    var original := q.price.amountCents;
    var amount := CalculateAmount(s.discounts[code], original);
    Redemption(code, PromotionOf(q), q.customer.id, q.price.code, q.key, original, amount, Max(original - amount, 0))
  }

  function Counted(s: Ledger, code: string, promotion: Option<string>): Ledger
    requires code in s.discounts
  {
    var d := s.discounts[code];
    var counted := s.(discounts := s.discounts[code := d.(redeemedCount := d.redeemedCount + 1)]);
    if promotion.Some? && promotion.value in s.promotions then
      var p := s.promotions[promotion.value];
      counted.(promotions := s.promotions[promotion.value := p.(redeemedCount := p.redeemedCount + 1)])
    else counted
  }

  /** `redeem_discount`: the new state and the row returned, or the unchanged state and the error. */
  function Redeem(s: Ledger, q: Request, now: int): (Ledger, Result<Redemption, Error>) {
    match Validated(s, q, now)
    case Raised(e) => (s, Raised(e))
    case Ok(code) =>
      var existing := FindRow(s.rows, q.customer.id, code, q.key);
      if q.key != "" && existing.Some? then (s, Ok(existing.value))
      else if code !in s.discounts || CalculateAmount(s.discounts[code], q.price.amountCents) < 0
      then (s, Raised(NegativeAmount))
      else if existing.Some? then (s, Raised(DuplicateRow))
      else
        var row := NewRow(s, q, code);
        (Counted(s.(rows := s.rows + [row]), code, row.promotion), Ok(row))
  }

  // ---------------------------------------------------------------- the ledger invariant

  function RowsOf(rows: seq<Redemption>, discount: string): nat {
    if rows == [] then 0 else RowsOf(rows[..|rows| - 1], discount) + if rows[|rows| - 1].discount == discount then 1
      else 0
  }

  function DirectRows(rows: seq<Redemption>, discount: string): nat {
    if rows == [] then 0
    else DirectRows(rows[..|rows| - 1], discount) +
         if rows[|rows| - 1].discount == discount && rows[|rows| - 1].promotion.None? then 1 else 0
  }

  function PromotionRows(rows: seq<Redemption>, promotion: string): nat {
    if rows == [] then 0
    else PromotionRows(rows[..|rows| - 1], promotion) + if rows[|rows| - 1].promotion == Some(promotion) then 1 else 0
  }

  /** Sum of the counters of the discount's promotion codes among `codes`. */
  ghost function PromotionTotal(promotions: map<string, Promotion>, codes: set<string>, discount: string): nat
    requires codes <= promotions.Keys
    decreases |codes|
  {
    if codes == {} then 0
    else
      var c :| c in codes;
      PromotionTotal(promotions, codes - {c}, discount) +
      if promotions[c].discount == discount then promotions[c].redeemedCount else 0
  }

  ghost predicate Unique(rows: seq<Redemption>) {
    forall i, j | 0 <= i < j < |rows| ::
      !SameTriple(rows[j], rows[i].customer, rows[i].discount, rows[i].idempotencyKey)
  }

  /** Foreign keys: a promotion code points to a discount, a row through a code is a row of that code's discount. */
  ghost predicate Linked(s: Ledger) {
    && (forall c | c in s.promotions :: s.promotions[c].discount in s.discounts)
    && (forall r | r in s.rows && r.promotion.Some? ::
          r.promotion.value in s.promotions && s.promotions[r.promotion.value].discount == r.discount)
  }

  predicate WithinCap(cap: Option<nat>, count: nat) {
    cap.Some? ==> count <= cap.value
  }

  ghost predicate DiscountCounted(s: Ledger, c: string)
    requires c in s.discounts
  {
    && s.discounts[c].redeemedCount == RowsOf(s.rows, c)
    && WithinCap(s.discounts[c].maxRedemptions, s.discounts[c].redeemedCount)
  }

  ghost predicate PromotionCounted(s: Ledger, c: string)
    requires c in s.promotions
  {
    && s.promotions[c].redeemedCount == PromotionRows(s.rows, c)
    && WithinCap(s.promotions[c].maxRedemptions, s.promotions[c].redeemedCount)
  }

  ghost predicate Consistent(s: Ledger) {
    && Linked(s) && Unique(s.rows)
    && (forall c | c in s.discounts :: DiscountCounted(s, c))
    && (forall c | c in s.promotions :: PromotionCounted(s, c))
  }

  lemma {:induction false} FindRowFinds(rows: seq<Redemption>, customer: nat, discount: string, key: string)
    ensures FindRow(rows, customer, discount, key).Some? <==>
            exists i :: 0 <= i < |rows| && SameTriple(rows[i], customer, discount, key)
    ensures FindRow(rows, customer, discount, key).Some? ==>
              FindRow(rows, customer, discount, key).value in rows &&
              SameTriple(FindRow(rows, customer, discount, key).value, customer, discount, key)
  {
    if rows != [] {
      FindRowFinds(rows[..|rows| - 1], customer, discount, key);
      if i :| 0 <= i < |rows| && SameTriple(rows[i], customer, discount, key) {
        assert i < |rows| - 1 ==> rows[..|rows| - 1][i] == rows[i];
      }
    }
  }

  lemma ValidatedIsRedeemable(s: Ledger, q: Request, now: int)
    requires Validated(s, q, now).Ok?
    ensures var code := Validated(s, q, now).value;
            && code in s.discounts && DiscountRedeemable(s.discounts[code], now)
            && (PromotionOf(q).Some? ==>
                  && q.promotionCode in s.promotions
                  && s.promotions[q.promotionCode].discount == code
                  && !Exhausted(s.promotions[q.promotionCode].maxRedemptions,
                                s.promotions[q.promotionCode].redeemedCount))
  {
  }

  /** The state in which a new row has been written for a validated request. */
  ghost predicate Writes(s: Ledger, q: Request, code: string) {
    && code in s.discounts && CalculateAmount(s.discounts[code], q.price.amountCents) >= 0
    && !Exhausted(s.discounts[code].maxRedemptions, s.discounts[code].redeemedCount)
    && FindRow(s.rows, q.customer.id, code, q.key).None?
    && (PromotionOf(q).Some? ==>
          && q.promotionCode in s.promotions && s.promotions[q.promotionCode].discount == code
          && !Exhausted(s.promotions[q.promotionCode].maxRedemptions, s.promotions[q.promotionCode].redeemedCount))
  }

  function Written(s: Ledger, q: Request, code: string): Ledger
    requires code in s.discounts && CalculateAmount(s.discounts[code], q.price.amountCents) >= 0
  {
    Counted(s.(rows := s.rows + [NewRow(s, q, code)]), code, PromotionOf(q))
  }

  lemma WrittenCounts(s: Ledger, q: Request, code: string, c: string)
    requires Writes(s, q, code)
    ensures c in s.discounts && DiscountCounted(s, c) ==>
              c in Written(s, q, code).discounts && DiscountCounted(Written(s, q, code), c)
    ensures c in s.promotions && PromotionCounted(s, c) ==>
              c in Written(s, q, code).promotions && PromotionCounted(Written(s, q, code), c)
  {
    var rows := Written(s, q, code).rows;
    assert rows[..|rows| - 1] == s.rows;
  }

  lemma WrittenLinked(s: Ledger, q: Request, code: string)
    requires Writes(s, q, code) && Linked(s)
    ensures Linked(Written(s, q, code))
  {
    var after := Written(s, q, code);
    forall r | r in after.rows && r.promotion.Some?
      ensures r.promotion.value in after.promotions && after.promotions[r.promotion.value].discount == r.discount
    {
      assert r in s.rows || r == NewRow(s, q, code);
    }
  }

  lemma WrittenUnique(s: Ledger, q: Request, code: string)
    requires Writes(s, q, code) && Unique(s.rows)
    ensures Unique(Written(s, q, code).rows)
  {
    FindRowFinds(s.rows, q.customer.id, code, q.key);
  }

  lemma WrittenKeepsConsistent(s: Ledger, q: Request, code: string)
    requires Consistent(s) && Writes(s, q, code)
    ensures Consistent(Written(s, q, code))
  {
    WrittenLinked(s, q, code);
    WrittenUnique(s, q, code);
    var after := Written(s, q, code);
    forall c | c in after.discounts ensures DiscountCounted(after, c) {
      WrittenCounts(s, q, code, c);
    }
    forall c | c in after.promotions ensures PromotionCounted(after, c) {
      WrittenCounts(s, q, code, c);
    }
  }

  /** A request either leaves the ledger alone or writes one row and its counters. */
  lemma RedeemWritesOrNot(s: Ledger, q: Request, now: int)
    ensures Redeem(s, q, now).0 == s ||
            (exists code :: Writes(s, q, code) && Redeem(s, q, now).0 == Written(s, q, code))
  {
    if Redeem(s, q, now).0 != s {
      ValidatedIsRedeemable(s, q, now);
      var code := Validated(s, q, now).value;
      assert Writes(s, q, code) && Redeem(s, q, now).0 == Written(s, q, code);
    }
  }

  lemma RedeemKeepsConsistent(s: Ledger, q: Request, now: int)
    requires Consistent(s)
    ensures Consistent(Redeem(s, q, now).0)
  {
    RedeemWritesOrNot(s, q, now);
    if Redeem(s, q, now).0 != s {
      var code :| Writes(s, q, code) && Redeem(s, q, now).0 == Written(s, q, code);
      WrittenKeepsConsistent(s, q, code);
    }
  }

  function Run(s: Ledger, requests: seq<(int, Request)>): Ledger {
    if requests == [] then s
    else Redeem(Run(s, requests[..|requests| - 1]), requests[|requests| - 1].1, requests[|requests| - 1].0).0
  }

  /** A catalogue as it is created: counters at zero, nothing redeemed. */
  ghost predicate IsNew(s: Ledger) {
    && s.rows == []
    && (forall c | c in s.discounts :: s.discounts[c].redeemedCount == 0)
    && (forall c | c in s.promotions :: s.promotions[c].redeemedCount == 0 && s.promotions[c].discount in s.discounts)
  }

  /** In every reachable state: each counter is the number of its ledger rows, no counter passes its cap, and there
      is at most one row per (customer, discount, key), the blank key included. */
  lemma {:induction false} LedgerInvariant(s: Ledger, requests: seq<(int, Request)>)
    requires IsNew(s)
    ensures Consistent(Run(s, requests))
  {
    if requests != [] {
      LedgerInvariant(s, requests[..|requests| - 1]);
      RedeemKeepsConsistent(Run(s, requests[..|requests| - 1]), requests[|requests| - 1].1, requests[|requests| - 1].0);
    }
  }

  /** Rows of `discount` that came through one of `codes`. */
  function RowsThrough(rows: seq<Redemption>, codes: set<string>, discount: string): nat {
    if rows == [] then 0
    else
      var r := rows[|rows| - 1];
      RowsThrough(rows[..|rows| - 1], codes, discount) +
      if r.discount == discount && r.promotion.Some? && r.promotion.value in codes then 1 else 0
  }

  lemma {:induction false} RowsThroughSplit(rows: seq<Redemption>, codes: set<string>, c: string, discount: string)
    requires c in codes
    ensures RowsThrough(rows, codes, discount) == RowsThrough(rows, codes - {c}, discount) +
            RowsThrough(rows, {c}, discount)
  {
    if rows != [] {
      RowsThroughSplit(rows[..|rows| - 1], codes, c, discount);
    }
  }

  lemma {:induction false} RowsThroughOne(rows: seq<Redemption>, promotions: map<string, Promotion>, c: string,
                                          discount: string)
    requires c in promotions
    requires forall r | r in rows && r.promotion.Some? ::
               r.promotion.value in promotions && promotions[r.promotion.value].discount == r.discount
    ensures RowsThrough(rows, {c}, discount) == if promotions[c].discount == discount then PromotionRows(rows, c) else 0
  {
    if rows != [] {
      RowsThroughOne(rows[..|rows| - 1], promotions, c, discount);
      assert rows[|rows| - 1] in rows;
    }
  }

  lemma {:induction false} PromotionTotalIsRowsThrough(s: Ledger, codes: set<string>, discount: string)
    requires Consistent(s) && codes <= s.promotions.Keys
    ensures PromotionTotal(s.promotions, codes, discount) == RowsThrough(s.rows, codes, discount)
    decreases |codes|
  {
    if codes == {} {
      NoRowsThroughNothing(s.rows, discount);
    } else {
      var c :| c in codes && PromotionTotal(s.promotions, codes, discount) ==
                             PromotionTotal(s.promotions, codes - {c}, discount) +
                             if s.promotions[c].discount == discount then s.promotions[c].redeemedCount else 0;
      PromotionTotalIsRowsThrough(s, codes - {c}, discount);
      RowsThroughSplit(s.rows, codes, c, discount);
      RowsThroughOne(s.rows, s.promotions, c, discount);
    }
  }

  lemma {:induction false} NoRowsThroughNothing(rows: seq<Redemption>, discount: string)
    ensures RowsThrough(rows, {}, discount) == 0
  {
    if rows != [] {
      NoRowsThroughNothing(rows[..|rows| - 1], discount);
    }
  }

  lemma {:induction false} RowsAreDirectOrThrough(rows: seq<Redemption>, codes: set<string>, discount: string)
    requires forall r | r in rows && r.promotion.Some? :: r.promotion.value in codes
    ensures RowsOf(rows, discount) == DirectRows(rows, discount) + RowsThrough(rows, codes, discount)
  {
    if rows != [] {
      RowsAreDirectOrThrough(rows[..|rows| - 1], codes, discount);
      assert rows[|rows| - 1] in rows;
    }
  }

  /** Conservation: a discount's counter is its direct rows plus the counters of its promotion codes. */
  lemma CountersAddUp(s: Ledger, requests: seq<(int, Request)>, discount: string)
    requires IsNew(s) && discount in Run(s, requests).discounts
    ensures var r := Run(s, requests);
            r.discounts[discount].redeemedCount ==
            DirectRows(r.rows, discount) + PromotionTotal(r.promotions, r.promotions.Keys, discount)
  {
    LedgerInvariant(s, requests);
    var r := Run(s, requests);
    PromotionTotalIsRowsThrough(r, r.promotions.Keys, discount);
    RowsAreDirectOrThrough(r.rows, r.promotions.Keys, discount);
  }

  // ---------------------------------------------------------------- amounts

  /** The discounts of the catalogue take at most 100 percent. */
  predicate Moderate(s: Ledger) {
    forall c | c in s.discounts ::
      s.discounts[c].discountType == Percent ==> 0 <= s.discounts[c].basisPoints.GetOr(0) <= 10000
  }

  lemma {:induction false} LedgerAmountsSplit(s: Ledger, requests: seq<(int, Request)>)
    requires IsNew(s) && Moderate(s)
    ensures Moderate(Run(s, requests))
    ensures forall r | r in Run(s, requests).rows :: Splits(r.originalCents, r.discountCents, r.finalCents)
  {
    if requests != [] {
      LedgerAmountsSplit(s, requests[..|requests| - 1]);
      var before := Run(s, requests[..|requests| - 1]);
      var q := requests[|requests| - 1].1;
      var now := requests[|requests| - 1].0;
      if Redeem(before, q, now).0 != before && Validated(before, q, now).Ok? {
        var code := Validated(before, q, now).value;
        ValidatedIsRedeemable(before, q, now);
        AmountsSplitExactlyUpTo100Percent(before.discounts[code]);
        var row := NewRow(before, q, code);
        assert Splits(row.originalCents, row.discountCents, row.finalCents);
      }
    }
  }

  // ---------------------------------------------------------------- what a redemption takes off

  /** The request has just written a row; `d` is the discount it was about. */
  ghost predicate Takes(s: Ledger, q: Request, now: int, d: Discount, r: Redemption) {
    && Redeem(s, q, now).0 != s && Redeem(s, q, now).1 == Ok(r)
    && r.discount in s.discounts && s.discounts[r.discount] == d
  }

  /** The row names what was asked for: the customer, the price and its amount, the key, and the code it came by. */
  lemma RedeemedRowNamesRequest(s: Ledger, q: Request, now: int, d: Discount, r: Redemption)
    requires Takes(s, q, now, d, r)
    ensures r.customer == q.customer.id && r.price == q.price.code && r.idempotencyKey == q.key
    ensures r.originalCents == q.price.amountCents
    ensures if q.promotionCode == "" then r.promotion.None? && r.discount == q.discountCode
            else r.promotion == Some(q.promotionCode) && q.promotionCode in s.promotions
                 && s.promotions[q.promotionCode].discount == r.discount
  {
    ValidatedIsRedeemable(s, q, now);
  }

  /** A percent discount of b basis points takes off the whole cents of that part of the price. */
  lemma PercentTakesItsPart(s: Ledger, q: Request, now: int, d: Discount, r: Redemption, b: nat)
    requires Takes(s, q, now, d, r) && d.discountType == Percent && b == d.basisPoints.GetOr(0)
    ensures r.discountCents * 10000 <= r.originalCents * b < (r.discountCents + 1) * 10000
    ensures b <= 10000 ==> r.finalCents == r.originalCents - r.discountCents
    ensures b >= 10000 ==> r.finalCents == 0
  {
    ValidatedIsRedeemable(s, q, now);
    RedeemedRowNamesRequest(s, q, now, d, r);
    PartOfAmount(r.originalCents, b);
  }

  lemma PartOfAmount(amount: nat, b: nat)
    ensures var part := amount * b / 10000;
            && part * 10000 <= amount * b < (part + 1) * 10000
            && (b <= 10000 ==> part <= amount) && (b >= 10000 ==> part >= amount)
  {
    if b <= 10000 {
      assert amount * b <= amount * 10000;
    }
    if b >= 10000 {
      assert amount * b >= amount * 10000;
    }
  }

  /** A fixed discount leaves the price less its amount, and nothing when it is larger. */
  lemma FixedTakesItsAmount(s: Ledger, q: Request, now: int, d: Discount, r: Redemption)
    requires Takes(s, q, now, d, r) && d.discountType == Fixed
    ensures var off := d.amountOffCents.GetOr(0);
            r.finalCents == if off <= r.originalCents then r.originalCents - off else 0
  {
    ValidatedIsRedeemable(s, q, now);
  }

  /** A free discount leaves nothing to pay. */
  lemma FreeTakesEverything(s: Ledger, q: Request, now: int, d: Discount, r: Redemption)
    requires Takes(s, q, now, d, r) && d.discountType == Free
    ensures r.finalCents == 0 && r.discountCents == r.originalCents
  {
    ValidatedIsRedeemable(s, q, now);
  }

  /** Of two redemptions at one price the one of the larger percentage never leaves more to pay. */
  lemma LargerPercentLeavesLess(s: Ledger, q: Request, d: Discount, r: Redemption, t: Ledger, p: Request, e: Discount,
                                o: Redemption, now: int, later: int, b: nat, c: nat)
    requires Takes(s, q, now, d, r) && d.discountType == Percent && b == d.basisPoints.GetOr(0)
    requires Takes(t, p, later, e, o) && e.discountType == Percent && c == e.basisPoints.GetOr(0)
    requires b <= c && r.originalCents == o.originalCents
    ensures o.finalCents <= r.finalCents && r.discountCents <= o.discountCents
  {
    PercentTakesItsPart(s, q, now, d, r, b);
    PercentTakesItsPart(t, p, later, e, o, c);
    RedeemedFinal(s, q, now, d, r);
    RedeemedFinal(t, p, later, e, o);
    LargerPartIsLarger(r.originalCents, b, c, r.discountCents, o.discountCents);
  }

  lemma LargerPartIsLarger(amount: nat, b: nat, c: nat, part: nat, larger: nat)
    requires b <= c && part * 10000 <= amount * b && amount * c < (larger + 1) * 10000
    ensures part <= larger
  {
    ProductGrows(amount, b, c);
  }

  lemma ProductGrows(amount: nat, b: nat, c: nat)
    requires b <= c
    ensures amount * b <= amount * c
  {
  }

  /** Never less than nothing is left to pay. */
  lemma RedeemedFinal(s: Ledger, q: Request, now: int, d: Discount, r: Redemption)
    requires Takes(s, q, now, d, r)
    ensures r.finalCents == if r.discountCents <= r.originalCents then r.originalCents - r.discountCents else 0
  {
    ValidatedIsRedeemable(s, q, now);
  }

  // ---------------------------------------------------------------- when a code may be used

  /** A discount below its cap is good exactly from its start, inclusive, to its expiry, exclusive. */
  lemma DiscountIsGoodInWindow(d: Discount, t: int)
    requires d.isActive && (d.maxRedemptions.Some? ==> d.redeemedCount < d.maxRedemptions.value)
    ensures DiscountRedeemable(d, t) <==>
            (d.startsAt.Some? ==> d.startsAt.value <= t) && (d.expiresAt.Some? ==> t < d.expiresAt.value)
  {
  }

  /** A promotion code is good exactly while it is active, unexpired and below its cap and its discount is good. */
  lemma PromotionIsGoodInWindow(p: Promotion, d: Discount, t: int)
    ensures PromotionRedeemable(p, d, t) <==>
            && p.isActive && DiscountRedeemable(d, t) && (p.expiresAt.Some? ==> t < p.expiresAt.value)
            && (p.maxRedemptions.Some? ==> p.redeemedCount < p.maxRedemptions.value)
  {
  }

  /** A discount without plans and projects applies to every price; each list it has must name the price. */
  lemma AppliesExactlyWhenListed(d: Discount, price: Price)
    ensures AppliesToPrice(d, price) <==>
            && (d.appliesToPlans == {} || price.plan.code in d.appliesToPlans)
            && (d.appliesToProjects == {} ||
                exists p :: p in d.appliesToProjects && price.plan.project == Some(p))
  {
  }

  // ---------------------------------------------------------------- retries after other requests

  /** The same catalogue, with the counters further on. */
  ghost predicate CountedOn(a: Ledger, b: Ledger) {
    && a.discounts.Keys == b.discounts.Keys && a.promotions.Keys == b.promotions.Keys
    && (forall c | c in a.discounts ::
          b.discounts[c] == a.discounts[c].(redeemedCount := b.discounts[c].redeemedCount))
    && (forall c | c in a.promotions ::
          b.promotions[c] == a.promotions[c].(redeemedCount := b.promotions[c].redeemedCount))
  }

  lemma RedeemCountsOn(s: Ledger, q: Request, now: int)
    ensures CountedOn(s, Redeem(s, q, now).0) && s.rows <= Redeem(s, q, now).0.rows
  {
    RedeemWritesOrNot(s, q, now);
  }

  /** No request edits the catalogue or takes a row back. */
  lemma {:induction false} RunCountsOn(s: Ledger, requests: seq<(int, Request)>)
    ensures CountedOn(s, Run(s, requests)) && s.rows <= Run(s, requests).rows
  {
    if requests != [] {
      var n := |requests| - 1;
      RunCountsOn(s, requests[..n]);
      RedeemCountsOn(Run(s, requests[..n]), requests[n].1, requests[n].0);
    }
  }

  lemma {:induction false} RunKeepsConsistent(s: Ledger, requests: seq<(int, Request)>)
    requires Consistent(s)
    ensures Consistent(Run(s, requests))
  {
    if requests != [] {
      var n := |requests| - 1;
      RunKeepsConsistent(s, requests[..n]);
      RedeemKeepsConsistent(Run(s, requests[..n]), requests[n].1, requests[n].0);
    }
  }

  /** Under the unique constraint a row is found by its triple, whatever else is in the table. */
  lemma UniqueRowIsFound(rows: seq<Redemption>, r: Redemption)
    requires Unique(rows) && r in rows
    ensures FindRow(rows, r.customer, r.discount, r.idempotencyKey) == Some(r)
  {
    FindRowFinds(rows, r.customer, r.discount, r.idempotencyKey);
    var i :| 0 <= i < |rows| && rows[i] == r;
    var found := FindRow(rows, r.customer, r.discount, r.idempotencyKey);
    assert SameTriple(rows[i], r.customer, r.discount, r.idempotencyKey);
    var j :| 0 <= j < |rows| && rows[j] == found.value;
    if i < j {
      assert !SameTriple(rows[j], rows[i].customer, rows[i].discount, rows[i].idempotencyKey);
    } else if j < i {
      assert !SameTriple(rows[i], rows[j].customer, rows[j].discount, rows[j].idempotencyKey);
    }
  }

  /** The row a request got is in the ledger, under the triple of the request. */
  lemma RedeemedRowIsStored(s: Ledger, q: Request, now: int)
    requires q.key != "" && Redeem(s, q, now).1.Ok?
    ensures Validated(s, q, now).Ok?
    ensures var (after, r) := Redeem(s, q, now);
            r.value in after.rows && SameTriple(r.value, q.customer.id, Validated(s, q, now).value, q.key)
  {
    FindRowFinds(s.rows, q.customer.id, Validated(s, q, now).value, q.key);
    var (after, r) := Redeem(s, q, now);
    if after.rows != s.rows {
      assert after.rows[|after.rows| - 1] == r.value;
    }
  }

  /** Which discount a request is about does not depend on counters. */
  lemma SameCodeLater(s: Ledger, t: Ledger, q: Request, now: int, later: int)
    requires CountedOn(s, t) && Validated(s, q, now).Ok? && Validated(t, q, later).Ok?
    ensures Validated(s, q, now).value == Validated(t, q, later).value
  {
  }

  /** Whatever requests come in between, sending a request again with its key changes nothing, and returns the first row
      if and only if the code passes validation at that time. */
  lemma RetryReturnsRowExactlyWhileRedeemable(s: Ledger, q: Request, now: int, between: seq<(int, Request)>, later: int)
    requires Consistent(s) && q.key != "" && Redeem(s, q, now).1.Ok?
    ensures var (once, first) := Redeem(s, q, now);
            var after := Run(once, between);
            && Redeem(after, q, later).0 == after
            && (Redeem(after, q, later) == (after, first) <==> Validated(after, q, later).Ok?)
  {
    var (once, first) := Redeem(s, q, now);
    var after := Run(once, between);
    RedeemKeepsConsistent(s, q, now);
    RunKeepsConsistent(once, between);
    RedeemCountsOn(s, q, now);
    RunCountsOn(once, between);
    RedeemedRowIsStored(s, q, now);
    UniqueRowIsFound(after.rows, first.value);
    if Validated(after, q, later).Ok? {
      SameCodeLater(s, after, q, now, later);
    }
  }

  /** The request would pass validation at the instant if there were no caps. */
  predicate GoodBesidesCaps(s: Ledger, q: Request, now: int) {
    Validated(Uncapped(s), q, now).Ok?
  }

  /** The catalogue without its caps. */
  function Uncapped(s: Ledger): Ledger {
    Ledger(map c | c in s.discounts :: s.discounts[c].(maxRedemptions := None, redeemedCount := 0),
           map c | c in s.promotions :: s.promotions[c].(maxRedemptions := None, redeemedCount := 0),
           [])
  }

  /** The cap of the discount, or that of the promotion code the request names, has been reached. */
  predicate CapReached(s: Ledger, q: Request) {
    var code := if q.promotionCode in s.promotions && q.promotionCode != "" then s.promotions[q.promotionCode].discount
                else q.discountCode;
    || (code in s.discounts && Exhausted(s.discounts[code].maxRedemptions, s.discounts[code].redeemedCount))
    || (q.promotionCode != "" && q.promotionCode in s.promotions &&
        Exhausted(s.promotions[q.promotionCode].maxRedemptions, s.promotions[q.promotionCode].redeemedCount))
  }

  /** Caps are the only thing that redemptions change about validation. */
  lemma ValidatedExactlyBelowCaps(s: Ledger, t: Ledger, q: Request, now: int)
    requires CountedOn(s, t)
    ensures Validated(t, q, now).Ok? <==> GoodBesidesCaps(s, q, now) && !CapReached(t, q)
    ensures GoodBesidesCaps(s, q, now) && CapReached(t, q) ==> Validated(t, q, now) == Raised(NotRedeemable)
  {
  }

  /** So, whatever requests come in between, the retry of a request that is still good besides caps raises if and
      only if a cap has been reached by then: by the request itself or by anybody else's. */
  lemma RetryRaisesExactlyAtCap(s: Ledger, q: Request, now: int, between: seq<(int, Request)>, later: int)
    requires Consistent(s) && q.key != "" && Redeem(s, q, now).1.Ok? && GoodBesidesCaps(s, q, later)
    ensures var (once, first) := Redeem(s, q, now);
            var after := Run(once, between);
            && (Redeem(after, q, later).1 == Raised(NotRedeemable) <==> CapReached(after, q))
            && (Redeem(after, q, later) == (after, first) <==> !CapReached(after, q))
  {
    var once := Redeem(s, q, now).0;
    RedeemCountsOn(s, q, now);
    RunCountsOn(once, between);
    ValidatedExactlyBelowCaps(s, Run(once, between), q, later);
    RetryReturnsRowExactlyWhileRedeemable(s, q, now, between, later);
  }

  /** The caps in terms of ledger rows. */
  lemma CapReachedByRows(s: Ledger, q: Request, code: string)
    requires Consistent(s) && code in s.discounts
    requires if q.promotionCode == "" then q.discountCode == code
             else q.promotionCode in s.promotions && s.promotions[q.promotionCode].discount == code
    ensures CapReached(s, q) <==>
            || s.discounts[code].maxRedemptions == Some(RowsOf(s.rows, code))
            || (q.promotionCode != "" &&
                s.promotions[q.promotionCode].maxRedemptions == Some(PromotionRows(s.rows, q.promotionCode)))
  {
    assert DiscountCounted(s, code);
    assert q.promotionCode != "" ==> PromotionCounted(s, q.promotionCode);
  }

  /** A discount that everybody may use until it has been used `cap` times. */
  function CappedDiscount(cap: nat): Discount {
    Discount(Free, None, None, Some(cap), 0, {}, {}, None, None, true)
  }

  function OrderOf(customer: nat): Request {
    Request(Customer(customer, None), Price("p", Plan("plan", None, []), 100), "", "D", "k")
  }

  /** Two failing inputs: alone under a cap of one, and after another customer under a cap of two. */
  lemma RetriesAtTheCapRaise()
    ensures var one := Ledger(map["D" := CappedDiscount(1)], map[], []);
            Redeem(Redeem(one, OrderOf(1), 0).0, OrderOf(1), 0).1 == Raised(NotRedeemable)
    ensures var two := Ledger(map["D" := CappedDiscount(2)], map[], []);
            Redeem(Run(Redeem(two, OrderOf(1), 0).0, [(0, OrderOf(2))]), OrderOf(1), 0).1 == Raised(NotRedeemable)
  {
    FirstOrder(1);
    FirstOrder(2);
    var two := Ledger(map["D" := CappedDiscount(2)], map[], []);
    var once := Redeem(two, OrderOf(1), 0).0;
    var requests := [(0, OrderOf(2))];
    assert requests[..0] == [];
    assert Run(once, requests) == Redeem(once, OrderOf(2), 0).0;
    assert once.rows[..0] == [];
    assert Redeem(once, OrderOf(2), 0).0.discounts["D"].redeemedCount == 2;
  }

  lemma FirstOrder(cap: nat)
    requires cap > 0
    ensures var s := Ledger(map["D" := CappedDiscount(cap)], map[], []);
            Redeem(s, OrderOf(1), 0).0 ==
            Ledger(map["D" := CappedDiscount(cap).(redeemedCount := 1)], map[],
                   [Redemption("D", None, 1, "p", "k", 100, 100, 0)])
  {
  }

  // ---------------------------------------------------------------- the service, in place

  class DiscountService {
    var discounts: map<string, Discount>
    var promotions: map<string, Promotion>
    var redemptions: seq<Redemption>

    ghost function State(): Ledger
      reads this
    {
      Ledger(discounts, promotions, redemptions)
    }

    constructor (discounts: map<string, Discount>, promotions: map<string, Promotion>)
      ensures State() == Ledger(discounts, promotions, [])
    {
      this.discounts, this.promotions, redemptions := discounts, promotions, [];
    }

    method Validate(q: Request, now: int) returns (r: Result<string, Error>)
      ensures r == Validated(State(), q, now)
    {
      var code := q.discountCode;
      if q.promotionCode != "" {
        if q.promotionCode !in promotions || !promotions[q.promotionCode].isActive {
          return Raised(NoSuchCode);
        }
        var promo := promotions[q.promotionCode];
        code := promo.discount;
        if code !in discounts {
          return Raised(NoSuchCode);
        }
        if promo.organization.Some? && q.customer.organization.Some? && promo.organization != q.customer.organization {
          return Raised(WrongOrganization);
        }
        if !PromotionRedeemable(promo, discounts[code], now) {
          return Raised(NotRedeemable);
        }
      } else {
        if code !in discounts || !discounts[code].isActive {
          return Raised(NoSuchCode);
        }
        if !DiscountRedeemable(discounts[code], now) {
          return Raised(NotRedeemable);
        }
      }
      if !AppliesToPrice(discounts[code], q.price) {
        return Raised(DoesNotApply);
      }
      r := Ok(code);
    }

    /** Atomic: an integrity error leaves every table as it was. */
    method RedeemDiscount(q: Request, now: int) returns (r: Result<Redemption, Error>)
      modifies this
      ensures (State(), r) == Redeem(old(State()), q, now)
    {
      var validated := Validate(q, now);
      if validated.Raised? {
        return Raised(validated.error);
      }
      var code := validated.value;
      var existing := FindRow(redemptions, q.customer.id, code, q.key);
      if q.key != "" && existing.Some? {
        return Ok(existing.value);
      }
      var discount := discounts[code];
      var amount := CalculateAmount(discount, q.price.amountCents);
      if amount < 0 {
        return Raised(NegativeAmount);
      }
      if existing.Some? {
        return Raised(DuplicateRow);
      }
      var promotion := if q.promotionCode != "" then Some(q.promotionCode) else None;
      var row := Redemption(code, promotion, q.customer.id, q.price.code, q.key, q.price.amountCents, amount,
                            Max(q.price.amountCents - amount, 0));
      redemptions := redemptions + [row];
      discounts := discounts[code := discount.(redeemedCount := discount.redeemedCount + 1)];
      if q.promotionCode != "" {
        var promo := promotions[q.promotionCode];
        promotions := promotions[q.promotionCode := promo.(redeemedCount := promo.redeemedCount + 1)];
      }
      r := Ok(row);
    }
  }
}
