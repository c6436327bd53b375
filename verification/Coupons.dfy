/** Coupons and the integer-VND discount. */
module Coupons {
  import opened Width
  import opened Text

  /** A time that was never set is None. */
  datatype Coupon = Coupon(
    code: string, percentBasisPoint: int64, fixedAmountVND: int64, minimumSubtotalVND: int64,
    maximumDiscountVND: int64, maximumRedemptions: int64, perAccountLimit: int64,
    startsAt: Option<int>, expiresAt: Option<int>, active: bool)

  /** The first test: the coupon can be used now, by this account, for this subtotal. */
  predicate Available(c: Coupon, subtotalVND: int64, totalUses: int, accountUses: int, now: int) {
    && c.active && TrimSpace(c.code) != "" && subtotalVND >= c.minimumSubtotalVND && subtotalVND >= 0
    && (c.startsAt.Some? ==> now >= c.startsAt.value)
    && (c.expiresAt.Some? ==> now < c.expiresAt.value)
    && (c.maximumRedemptions > 0 ==> totalUses < c.maximumRedemptions)
    && (c.perAccountLimit > 0 ==> accountUses < c.perAccountLimit)
  }

  /** The second test: the coupon grants either a percentage or an amount. */
  predicate WellFormed(c: Coupon) {
    && (c.percentBasisPoint > 0) != (c.fixedAmountVND > 0)
    && 0 <= c.percentBasisPoint <= 10000 && c.fixedAmountVND >= 0
  }

  /** The percentage of a subtotal in int64 arithmetic, with its overflow guard. */
  function Percentage(subtotalVND: int64, bp: int64): Option<int64>
    requires subtotalVND >= 0 && 0 < bp
  {
    var whole, remainder := subtotalVND / 10000, subtotalVND % 10000;
    var fraction := Wrap64(remainder * bp) / 10000;
    if whole > Wrap64(MAX_INT64 - fraction) / bp then None
    else Some(Wrap64(Wrap64(whole * bp) + fraction))
  }

  function Capped(c: Coupon, discount: int64, subtotalVND: int64): (d: int64)
    ensures d == Min(if c.maximumDiscountVND > 0 then Min(discount, c.maximumDiscountVND) else discount, subtotalVND)
  {
    var capped := if c.maximumDiscountVND > 0 && discount > c.maximumDiscountVND then c.maximumDiscountVND else discount;
    if capped > subtotalVND then subtotalVND else capped
  }

  function CouponDiscount(c: Coupon, subtotalVND: int64, totalUses: int, accountUses: int, now: int): Option<int64> {
    if !Available(c, subtotalVND, totalUses, accountUses, now) || !WellFormed(c) then None
    else
      match if c.percentBasisPoint > 0 then Percentage(subtotalVND, c.percentBasisPoint) else Some(c.fixedAmountVND)
      case None => None
      case Some(discount) =>
        Some(Capped(c, discount, subtotalVND))
  }

  function Min(a: int, b: int): int {
    if a <= b then a else b
  }

  /** The discount a coupon promises on a subtotal, in exact arithmetic: the floor of the percentage or
      the fixed amount, no more than the cap and no more than the subtotal. */
  function Promised(c: Coupon, subtotal: int): int {
    var full := if c.percentBasisPoint > 0 then subtotal * c.percentBasisPoint / 10000 else c.fixedAmountVND;
    Min(if c.maximumDiscountVND > 0 then Min(full, c.maximumDiscountVND) else full, subtotal)
  }

  /** Splitting the percentage into whole ten-thousands and a rest loses nothing. */
  lemma SplitPercentage(subtotal: int, bp: int)
    requires subtotal >= 0 && 0 <= bp <= 10000
    ensures subtotal / 10000 * bp + subtotal % 10000 * bp / 10000 == subtotal * bp / 10000
    ensures 0 <= subtotal % 10000 * bp <= 9999 * 10000
    ensures 0 <= subtotal / 10000 * bp <= subtotal
    ensures 0 <= subtotal * bp / 10000 <= subtotal
  {
    var whole, rest := subtotal / 10000, subtotal % 10000;
    Bounded(rest, bp);
    Bounded(whole, bp);
    assert subtotal * bp == whole * bp * 10000 + rest * bp by {
      assert subtotal == whole * 10000 + rest;
    }
    var f := rest * bp / 10000;
    assert rest * bp == f * 10000 + rest * bp % 10000;
    DivUnique(subtotal * bp, whole * bp + f, rest * bp % 10000);
    assert f <= rest;
  }

  lemma Bounded(x: int, bp: int)
    requires x >= 0 && 0 <= bp <= 10000
    ensures 0 <= x * bp <= x * 10000
  {
  }

  lemma DivUnique(n: int, q: int, r: int)
    requires 0 <= r < 10000 && n == q * 10000 + r
    ensures n / 10000 == q
  {
  }

  lemma QuotientBound(q: int, room: int, price: int)
    requires price > 0
    ensures q > room / price <==> q * price > room
  {
    var d := room / price;
    assert room == d * price + room % price;
    if q > d {
      assert q * price >= (d + 1) * price == d * price + price;
    } else {
      assert q * price <= d * price;
    }
  }

  /** The overflow guard never fires and no multiplication wraps. */
  lemma PercentageExact(subtotalVND: int64, bp: int64)
    requires subtotalVND >= 0 && 0 < bp <= 10000
    ensures Percentage(subtotalVND, bp) == Some(subtotalVND * bp / 10000)
  {
    var whole, fraction := subtotalVND / 10000, subtotalVND % 10000 * bp / 10000;
    SplitPercentage(subtotalVND, bp);
    QuotientBound(whole, MAX_INT64 - fraction, bp);
    assert whole * bp + fraction <= MAX_INT64;
  }

  /** An available, well-formed coupon always gives exactly the promised discount, and no other coupon
      gives any. */
  lemma DiscountExact(c: Coupon, subtotalVND: int64, totalUses: int, accountUses: int, now: int)
    ensures CouponDiscount(c, subtotalVND, totalUses, accountUses, now)
         == if Available(c, subtotalVND, totalUses, accountUses, now) && WellFormed(c)
            then Some(Promised(c, subtotalVND)) else None
  {
    if Available(c, subtotalVND, totalUses, accountUses, now) && WellFormed(c) && c.percentBasisPoint > 0 {
      PercentageExact(subtotalVND, c.percentBasisPoint);
    }
  }

  /** The discount is never negative and never more than the subtotal. */
  lemma DiscountBounded(c: Coupon, subtotal: int64)
    requires WellFormed(c) && subtotal >= 0
    ensures 0 <= Promised(c, subtotal) <= subtotal
  {
    SplitPercentage(subtotal, c.percentBasisPoint);
  }

  lemma PercentageGrows(less: int, more: int, bp: int)
    requires 0 <= less <= more && 0 <= bp <= 10000
    ensures less * bp / 10000 <= more * bp / 10000 <= less * bp / 10000 + (more - less)
  {
    var d := more - less;
    assert more * bp == less * bp + d * bp;
    Bounded(d, bp);
    DivGrowth(less * bp, d * bp, d);
  }

  /** A larger subtotal never costs less. */
  lemma PayableMonotone(c: Coupon, less: int64, more: int64)
    requires WellFormed(c) && 0 <= less <= more
    ensures less - Promised(c, less) <= more - Promised(c, more)
  {
    PercentageGrows(less, more, c.percentBasisPoint);
  }

  lemma DivGrowth(n: int, m: int, d: int)
    requires 0 <= m <= d * 10000
    ensures n / 10000 <= (n + m) / 10000 <= n / 10000 + d
  {
  }

  /** What a coupon is worth depends on the subtotal alone: use counts and the clock only decide whether
      it is accepted at all. */
  lemma DiscountStable(c: Coupon, subtotal: int64, uses: int, mine: int, now: int, uses': int, mine': int, later: int)
    requires CouponDiscount(c, subtotal, uses, mine, now).Some?
    requires CouponDiscount(c, subtotal, uses', mine', later).Some?
    ensures CouponDiscount(c, subtotal, uses, mine, now) == CouponDiscount(c, subtotal, uses', mine', later)
  {
  }

  // -------------------------------------------------------------- subtotals

  /** One line as it is priced. */
  datatype Priced = Priced(price: int64, quantity: uint64) {
    function Cost(): int {
      price * quantity
    }
  }

  function Total(lines: seq<Priced>): int {
    if lines == [] then 0 else Total(lines[..|lines| - 1]) + lines[|lines| - 1].Cost()
  }

  lemma {:induction false} TotalGrows(lines: seq<Priced>, k: nat)
    requires k <= |lines| && forall i | 0 <= i < |lines| :: lines[i].price > 0
    ensures Total(lines[..k]) <= Total(lines)
  {
    if k < |lines| {
      var n := |lines| - 1;
      TotalGrows(lines[..n], k);
      assert lines[..n][..k] == lines[..k];
      CostNonNegative(lines[n]);
    } else {
      assert lines[..k] == lines;
    }
  }

  lemma CostNonNegative(line: Priced)
    requires line.price > 0
    ensures line.Cost() >= 0
  {
  }

  /** The sum of one line more, and what the sums so far say about the whole. */
  lemma TotalStep(lines: seq<Priced>, i: nat)
    requires i < |lines| && forall k | 0 <= k < |lines| :: lines[k].price > 0
    requires Total(lines[..i]) >= 0
    ensures Total(lines[..i + 1]) == Total(lines[..i]) + lines[i].Cost() <= Total(lines)
    ensures 0 <= lines[i].Cost() <= Total(lines)
  {
    assert lines[..i + 1][..i] == lines[..i];
    TotalGrows(lines, i + 1);
    CostNonNegative(lines[i]);
  }

  /** The quotient test of a line is a test of its exact cost. */
  lemma CostTest(line: Priced, room: int)
    requires line.price > 0
    ensures line.quantity > room / line.price <==> line.Cost() > room
  {
    QuotientBound(line.quantity, room, line.price);
  }

  /** Order's subtotal loop: it rejects exactly the sums that do not fit an int64. */
  method PreviewSubtotal(lines: seq<Priced>) returns (subtotal: Option<int64>)
    requires forall i | 0 <= i < |lines| :: lines[i].price > 0 && lines[i].quantity <= 0xffff_ffff
    ensures subtotal == if Total(lines) <= MAX_INT64 then Some(Total(lines)) else None
  {
    var sum: int64 := 0;
    for i := 0 to |lines|
      invariant sum == Total(lines[..i]) >= 0
    {
      var line := lines[i];
      TotalStep(lines, i);
      CostTest(line, MAX_INT64 - sum);
      if line.quantity > Wrap64(MAX_INT64 - sum) / line.price {
        return None;
      }
      sum := Wrap64(sum + Wrap64(line.Cost()));
    }
    assert lines[..|lines|] == lines;
    subtotal := Some(sum);
  }

  predicate AllPriced(lines: seq<Priced>) {
    forall i | 0 <= i < |lines| :: lines[i].price > 0
  }

  lemma PrefixStep(lines: seq<Priced>, i: nat)
    requires i < |lines| && AllPriced(lines[..i + 1]) && Total(lines[..i]) >= 0
    ensures Total(lines[..i + 1]) == Total(lines[..i]) + lines[i].Cost() && lines[i].Cost() >= 0
    ensures AllPriced(lines) ==> Total(lines[..i + 1]) <= Total(lines) && lines[i].Cost() <= Total(lines)
  {
    assert lines[..i + 1][i] == lines[i];
    assert lines[..i + 1][..i] == lines[..i];
    CostNonNegative(lines[i]);
    if AllPriced(lines) {
      TotalStep(lines, i);
    }
  }

  /** Payment's subtotal loop lets the sum wrap and looks at its sign: apart from lines without a positive
      VND price it rejects exactly the sums that do not fit an int64. */
  method CatalogSubtotal(lines: seq<Priced>) returns (subtotal: Option<int64>)
    ensures subtotal == if AllPriced(lines) && Total(lines) <= MAX_INT64 then Some(Total(lines)) else None
  {
    var sum: int64 := 0;
    for i := 0 to |lines|
      invariant AllPriced(lines[..i])
      invariant sum == Total(lines[..i]) >= 0
    {
      var line := lines[i];
      if line.price <= 0 {
        return None;
      }
      assert lines[..i + 1] == lines[..i] + [line];
      PrefixStep(lines, i);
      CostTest(line, MAX_INT64);
      if line.quantity > MAX_INT64 / line.price {
        return None;
      }
      sum := Wrap64(sum + Wrap64(line.Cost()));
      if sum < 0 {
        return None;
      }
    }
    assert lines[..|lines|] == lines;
    subtotal := Some(sum);
  }
}
