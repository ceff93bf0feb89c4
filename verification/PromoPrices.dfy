/** What a customer pays with a promo code, over all order values. */
module PromoPrices {
  import opened Wrappers
  import opened Promos

  // ---- Whether the two amounts add up

  /** The two amounts add up to the order value exactly when the rounded discount is not more
      than the order. */
  lemma AddsUpExactly(p: Promo, orderValue: real)
    requires orderValue >= 0.0
    ensures Round(Discount(p, orderValue)) as real + FinalAmount(p, orderValue) == orderValue <==>
            Round(Discount(p, orderValue)) as real <= orderValue
  {
  }

  /** For whole orders only a percentage can fail that, and then only by taking off at least half
      a unit more than the order. */
  lemma WholeOrdersAddUp(p: Promo, n: nat)
    ensures Round(Discount(p, n as real)) as real + FinalAmount(p, n as real) == n as real <==>
            !(p.kind == PERCENTAGE && Discount(p, n as real) >= n as real + 0.5)
  {
    AddsUpExactly(p, n as real);
    RoundAtMost(Discount(p, n as real), n);
  }

  lemma RoundAtMost(x: real, n: int)
    ensures Round(x) as real <= n as real <==> x < n as real + 0.5
    ensures Round(x) <= n <==> x < n as real + 0.5
  {
  }

  lemma PercentageBelowOrder(p: Promo, n: nat)
    requires p.kind == PERCENTAGE && p.value <= 100.0
    ensures Discount(p, n as real) <= n as real
  {
    TimesMonotone(n as real, p.value, 100.0);
  }

  lemma TimesMonotone(x: real, a: real, b: real)
    requires x >= 0.0 && a <= b
    ensures x * a <= x * b
  {
  }

  /** With percentages of at most a hundred, whole orders always add up. */
  lemma HonestPromosAddUp(p: Promo, n: nat)
    requires p.kind == PERCENTAGE ==> p.value <= 100.0
    ensures Round(Discount(p, n as real)) as real + FinalAmount(p, n as real) == n as real
  {
    if p.kind == PERCENTAGE { PercentageBelowOrder(p, n); }
    WholeOrdersAddUp(p, n);
  }

  /** The two amounts add up whatever the order, fractions included. */
  ghost predicate AlwaysAddsUp(p: Promo) {
    forall x :: x >= 0.0 ==> Round(Discount(p, x)) as real + FinalAmount(p, x) == x
  }

  /** Over all orders, fractions included, the amounts add up exactly for percentages of at most
      fifty and for discounts that cannot reach one half. */
  lemma AlwaysAddsUpExactly(p: Promo)
    requires p.value >= 0.0
    ensures AlwaysAddsUp(p) <==>
              match p.kind
              case PERCENTAGE => p.value <= 50.0 || (p.maxDiscount.Some? && p.maxDiscount.value < 0.5)
              case FIXED => p.value < 0.5
              case FREE_RIDE => false
  {
    if p.kind == PERCENTAGE && p.value > 50.0 && (p.maxDiscount.Some? ==> p.maxDiscount.value >= 0.5) {
      var x := 50.0 / p.value;
      assert x * p.value == 50.0;
      if x >= 1.0 { TimesMonotone(p.value, 1.0, x); }
      assert Discount(p, x) == 0.5 && Round(Discount(p, x)) == 1;
      AddsUpExactly(p, x);
    } else if p.kind == FREE_RIDE || (p.kind == FIXED && p.value >= 0.5) {
      AddsUpExactly(p, 0.5);
    } else {
      forall x | x >= 0.0 ensures Round(Discount(p, x)) as real + FinalAmount(p, x) == x {
        AddsUpExactly(p, x);
        SmallDiscountFits(p, x);
      }
    }
  }

  lemma HalfAtMost(x: real, rate: real)
    requires x >= 0.0 && rate <= 50.0
    ensures Part(rate, x) <= x / 2.0
  {
    TimesMonotone(x, rate, 50.0);
    var part := x * rate;
    assert part <= 50.0 * x;
    assert part / 100.0 <= x / 2.0;
  }

  lemma HalfDiscount(p: Promo, x: real)
    requires p.kind == PERCENTAGE && p.value <= 50.0 && x >= 0.0
    ensures Discount(p, x) <= x / 2.0
  {
    hide Discount, Part;
    DiscountIsCappedPart(p, x);
    HalfAtMost(x, p.value);
  }

  lemma RoundedHalfFits(d: real, x: real)
    requires x >= 0.0 && d <= x / 2.0
    ensures Round(d) as real <= x
  {
    assert 2.0 * Round(d) as real - 1.0 <= 2.0 * d;
  }

  lemma SmallDiscountFits(p: Promo, x: real)
    requires x >= 0.0 && p.value >= 0.0 && !p.kind.FREE_RIDE?
    requires p.kind == FIXED ==> p.value < 0.5
    requires p.kind == PERCENTAGE ==> p.value <= 50.0 || (p.maxDiscount.Some? && p.maxDiscount.value < 0.5)
    ensures Round(Discount(p, x)) as real <= x
  {
    if p.kind == PERCENTAGE && p.value <= 50.0 {
      HalfDiscount(p, x);
      RoundedHalfFits(Discount(p, x), x);
    }
  }

  /** An instance: a free ride of 10.5 is discounted by 11. */
  lemma FractionalOrderDoesNotAddUp(p: Promo)
    requires p.kind == FREE_RIDE
    ensures Round(Discount(p, 10.5)) == 11 && FinalAmount(p, 10.5) == 0.0
  {
  }

  // ---- Whether a larger order can cost less

  lemma RoundMonotone(x: real, y: real, k: int)
    requires x <= y + k as real
    ensures Round(x) <= Round(y) + k
  {
  }

  lemma DiscountGrowsSlowly(p: Promo, n: nat, m: nat)
    requires n <= m && (p.kind == PERCENTAGE ==> p.value <= 100.0)
    ensures Discount(p, m as real) <= Discount(p, n as real) + (m - n) as real
  {
    if p.kind == PERCENTAGE {
      var a, b, k := n as real, m as real, (m - n) as real;
      TimesMonotone(k, p.value, 100.0);
      assert b == a + k;
      Distribute(a, k, p.value);
      assert b * p.value / 100.0 <= a * p.value / 100.0 + k;
    }
  }

  lemma Distribute(a: real, b: real, c: real)
    ensures (a + b) * c == a * c + b * c
  {
  }

  lemma SlowDiscountKeepsOrder(p: Promo, n: nat, m: nat)
    requires n <= m && Discount(p, m as real) <= Discount(p, n as real) + (m - n) as real
    ensures FinalAmount(p, n as real) <= FinalAmount(p, m as real)
  {
    var dn, dm := Round(Discount(p, n as real)), Round(Discount(p, m as real));
    RoundMonotone(Discount(p, m as real), Discount(p, n as real), m - n);
    assert n - dn <= m - dm;
    assert (n - dn) as real == n as real - dn as real && (m - dm) as real == m as real - dm as real;
  }

  /** A larger whole order never costs less after the discount, for any kind of promo, capped or
      not. */
  lemma FinalAmountMonotone(p: Promo, n: nat, m: nat)
    requires n <= m && p.value >= 0.0
    ensures FinalAmount(p, n as real) <= FinalAmount(p, m as real)
  {
    if p.kind == PERCENTAGE && p.value > 100.0 {
      SteepPercentage(p, n, m);
    } else {
      DiscountGrowsSlowly(p, n, m);
      SlowDiscountKeepsOrder(p, n, m);
    }
  }

  lemma FreeOrder(p: Promo, n: nat, y: real)
    requires Discount(p, n as real) >= n as real
    ensures FinalAmount(p, n as real) <= FinalAmount(p, y)
  {
    RoundMonotone(n as real, Discount(p, n as real), 0);
    assert Round(n as real) == n;
  }

  /** Above a hundred percent the order is free until the cap is reached. */
  lemma SteepPercentage(p: Promo, n: nat, m: nat)
    requires n <= m && p.kind == PERCENTAGE && p.value > 100.0
    ensures FinalAmount(p, n as real) <= FinalAmount(p, m as real)
  {
    hide Discount, FinalAmount;
    var dn := Discount(p, n as real);
    TimesMonotone(n as real, 100.0, p.value);
    assert Part(p.value, n as real) >= n as real;
    PartMonotone(p.value, n as real, m as real);
    DiscountIsCappedPart(p, n as real);
    DiscountIsCappedPart(p, m as real);
    if dn >= n as real {
      FreeOrder(p, n, m as real);
    } else {
      assert Discount(p, m as real) == dn;
      SlowDiscountKeepsOrder(p, n, m);
    }
  }

  /** Every discount is a percentage of the order with a cap: a fixed amount is the whole order
      capped at that amount, a free ride the whole order without a cap. */
  function Rate(p: Promo): real {
    if p.kind == PERCENTAGE then p.value else 100.0
  }

  function Cap(p: Promo): Optional<real> {
    match p.kind
    case PERCENTAGE => p.maxDiscount
    case FIXED => Some(p.value)
    case FREE_RIDE => None
  }

  function Part(rate: real, x: real): real { x * rate / 100.0 }

  function Capped(cap: Optional<real>, d: real): real {
    if cap.Some? then Min(d, cap.value) else d
  }

  lemma DiscountIsCappedPart(p: Promo, x: real)
    ensures Discount(p, x) == Capped(Cap(p), Part(Rate(p), x))
  {
    assert p.kind != PERCENTAGE ==> Part(Rate(p), x) == x;
  }

  /** No order of at least this value costs less than a smaller one. */
  ghost predicate NeverCostsLess(p: Promo, least: real) {
    forall x, y :: least <= x <= y ==> FinalAmount(p, x) <= FinalAmount(p, y)
  }

  /** The first amount that the rounded discount jumps to above the least order. */
  function NextOff(rate: real, least: real): int {
    Round(Part(rate, least)) + 1
  }

  /** The discount grows, is not capped before that jump, and at the jump the smaller amount off
      does not cover the order. */
  predicate Drops(rate: real, cap: Optional<real>, least: real) {
    var k := NextOff(rate, least) as real;
    && rate > 0.0
    && (cap.Some? ==> cap.value >= k - 0.5)
    && 100.0 * (k - 0.5) > rate * (k - 1.0)
  }

  lemma PartMonotone(rate: real, x: real, y: real)
    requires rate >= 0.0 && x <= y
    ensures Part(rate, x) <= Part(rate, y)
  {
    TimesMonotone(rate, x, y);
  }

  /** Two orders that show the drop: one at the jump and one just below it. */
  lemma DropAtJump(p: Promo, least: real) returns (x: real, y: real)
    requires p.value >= 0.0 && least >= 0.0 && Drops(Rate(p), Cap(p), least)
    ensures least <= x <= y && FinalAmount(p, x) > FinalAmount(p, y)
  {
    var rate, k := Rate(p), NextOff(Rate(p), least);
    y := 100.0 * (k as real - 0.5) / rate;
    JumpOrder(rate, k as real, y);
    BelowJump(rate, least, y);
    var low := Max(least, Max(k as real - 1.0, y - 1.0));
    x := (low + y) / 2.0;
    BelowJump(rate, x, y);
    PartMonotone(rate, least, x);
    DiscountIsCappedPart(p, x);
    DiscountIsCappedPart(p, y);
    assert Round(Discount(p, y)) == k;
    assert Round(Discount(p, x)) == k - 1;
  }

  function Max(a: real, b: real): real { if a >= b then a else b }

  lemma JumpOrder(rate: real, k: real, y: real)
    requires rate > 0.0 && y == 100.0 * (k - 0.5) / rate && 100.0 * (k - 0.5) > rate * (k - 1.0)
    ensures Part(rate, y) == k - 0.5 && y > k - 1.0
  {
    assert y * rate == 100.0 * (k - 0.5);
    if y <= k - 1.0 { TimesMonotone(rate, y, k - 1.0); }
  }

  lemma BelowJump(rate: real, x: real, y: real)
    requires rate > 0.0
    ensures x < y <==> Part(rate, x) < Part(rate, y)
  {
    if x < y { assert (y - x) * rate > 0.0; } else { PartMonotone(rate, y, x); }
  }

  lemma ConstantOff(p: Promo, x: real, y: real)
    requires x <= y && Round(Discount(p, x)) == Round(Discount(p, y))
    ensures FinalAmount(p, x) <= FinalAmount(p, y)
  {
  }

  /** A cap below the jump keeps the rounded discount where it is. */
  lemma CappedBelowJump(p: Promo, least: real, x: real)
    requires p.value >= 0.0 && least <= x && Cap(p).Some?
    requires Cap(p).value < NextOff(Rate(p), least) as real - 0.5
    ensures Round(Discount(p, x)) == Round(Min(Part(Rate(p), least), Cap(p).value))
  {
    var k := NextOff(Rate(p), least);
    PartMonotone(Rate(p), least, x);
    DiscountIsCappedPart(p, x);
  }

  /** Where the amount off covers the order at the jump, it covers every order from there on. */
  lemma OffCovers(rate: real, least: real, x: real)
    requires rate > 0.0 && 0.0 <= least <= x
    requires var k := NextOff(rate, least) as real; 100.0 * (k - 0.5) <= rate * (k - 1.0)
    ensures Round(Part(rate, x)) as real >= x
  {
    var k, n := NextOff(rate, least), Round(Part(rate, x));
    PartMonotone(rate, least, x);
    assert Part(rate, least) >= 0.0;
    assert n >= k - 1 >= 0;
    Steeper(rate, k as real - 1.0, n as real);
    if x > n as real { TimesMonotone(rate, n as real, x); }
  }

  lemma Steeper(rate: real, m: real, n: real)
    requires 0.0 <= m <= n && 100.0 * (m + 0.5) <= rate * m
    ensures 100.0 * (n + 0.5) <= rate * n
  {
    if rate <= 100.0 {
      TimesMonotone(m, rate, 100.0);
    } else {
      TimesMonotone(rate - 100.0, m, n);
    }
  }

  lemma NoDropBetween(p: Promo, least: real, x: real, y: real)
    requires p.value >= 0.0 && 0.0 <= least <= x <= y && !Drops(Rate(p), Cap(p), least)
    ensures FinalAmount(p, x) <= FinalAmount(p, y)
  {
    hide Cap, Discount, NextOff, Round;
    var rate, cap, k := Rate(p), Cap(p), NextOff(Rate(p), least);
    DiscountIsCappedPart(p, x);
    DiscountIsCappedPart(p, y);
    if rate == 0.0 {
      assert Part(rate, x) == Part(rate, y) == 0.0;
      ConstantOff(p, x, y);
    } else if cap.Some? && cap.value < k as real - 0.5 {
      CappedBelowJump(p, least, x);
      CappedBelowJump(p, least, y);
      ConstantOff(p, x, y);
    } else if cap.Some? && Part(rate, x) > cap.value {
      PartMonotone(rate, x, y);
      ConstantOff(p, x, y);
    } else {
      OffCovers(rate, least, x);
    }
  }

  /** Among orders of at least a given value, a larger one never costs less if and only if the
      promo does not drop at its first jump from there. */
  lemma MonotoneExactly(p: Promo, least: real)
    requires p.value >= 0.0 && least >= 0.0
    ensures NeverCostsLess(p, least) <==> !Drops(Rate(p), Cap(p), least)
  {
    if Drops(Rate(p), Cap(p), least) {
      var x, y := DropAtJump(p, least);
    } else {
      forall x, y | least <= x <= y ensures FinalAmount(p, x) <= FinalAmount(p, y) {
        NoDropBetween(p, least, x, y);
      }
    }
  }

  /** Over all orders: exactly when the discount can never reach one half. */
  lemma MonotoneFromZero(p: Promo)
    requires p.value >= 0.0
    ensures NeverCostsLess(p, 0.0) <==>
              match p.kind
              case PERCENTAGE => p.value == 0.0 || (p.maxDiscount.Some? && p.maxDiscount.value < 0.5)
              case FIXED => p.value < 0.5
              case FREE_RIDE => false
  {
    MonotoneExactly(p, 0.0);
    assert NextOff(Rate(p), 0.0) == 1;
  }

  /** At 5 percent, 9.9 costs 9.9 and 10.4 costs 9.4. */
  lemma FractionalOrderCostsLess(p: Promo)
    requires p.kind == PERCENTAGE && p.value == 5.0 && p.maxDiscount.None?
    ensures FinalAmount(p, 9.9) == 9.9 && FinalAmount(p, 10.4) == 9.4
  {
    assert 9.9 * p.value == 49.5 && 10.4 * p.value == 52.0;
    assert Discount(p, 9.9) == 0.495 && Discount(p, 10.4) == 0.52;
  }
}
