/** Promo codes: when one applies, what it takes off, and how often it is used. Order values
    and percentages are exact; a discount is rounded to a whole amount. */
module Promos {
  import opened Wrappers

  datatype PromoType = PERCENTAGE | FIXED | FREE_RIDE

  datatype Context = RIDE | FOOD | ALL

  datatype Promo = Promo(kind: PromoType, value: real, minOrderValue: real, maxDiscount: Optional<real>,
                         applicableTo: Context, usageLimitPerUser: int, totalUsageLimit: Optional<int>,
                         totalUsed: int, validFrom: int, validUntil: int, isActive: bool)

  datatype Usage = Usage(userId: string, code: string, discountAmount: int, usedAt: int)

  datatype Request = Request(code: string, userId: string, orderValue: real, context: Optional<Context>)

  datatype Error =
    | NotFound | NotActive | NotInPeriod | BelowMinimum | NotApplicable | AlreadyUsed | LimitExceeded

  datatype Result = Applies(discountAmount: int, finalAmount: real) | Refused(error: Error)

  // ---- The discount

  /** `Math.round`: halves go up. */
  function Round(x: real): int { (x + 0.5).Floor }

  function Min(a: real, b: real): real { if a <= b then a else b }

  /** The discount before it is rounded. */
  function Discount(p: Promo, orderValue: real): real {
    match p.kind
    case PERCENTAGE =>
      var d := orderValue * p.value / 100.0;
      if p.maxDiscount.Some? then Min(d, p.maxDiscount.value) else d
    case FIXED => Min(p.value, orderValue)
    case FREE_RIDE => orderValue
  }

  function FinalAmount(p: Promo, orderValue: real): real {
    var rest := orderValue - Round(Discount(p, orderValue)) as real;
    if rest > 0.0 then rest else 0.0
  }

  // ---- The uses

  function UsesOf(usages: seq<Usage>, code: string): nat {
    if usages == [] then 0
    else UsesOf(usages[..|usages| - 1], code) + if usages[|usages| - 1].code == code then 1 else 0
  }

  function UsesBy(usages: seq<Usage>, code: string, userId: string): nat {
    if usages == [] then 0
    else
      var u := usages[|usages| - 1];
      UsesBy(usages[..|usages| - 1], code, userId) + if u.code == code && u.userId == userId then 1 else 0
  }

  /** The first check a request fails, in the order in which `validate` makes them. */
  function FirstFailure(promos: map<string, Promo>, usages: seq<Usage>, q: Request, now: int): (failure: Optional<Error>)
    ensures failure.None? ==> q.code in promos
  {
    if q.code !in promos then Some(NotFound)
    else
      var p := promos[q.code];
      if !p.isActive then Some(NotActive)
      else if p.validFrom > now || p.validUntil < now then Some(NotInPeriod)
      else if q.orderValue < p.minOrderValue then Some(BelowMinimum)
      else if q.context.Some? && p.applicableTo != ALL && p.applicableTo != q.context.value then Some(NotApplicable)
      else if UsesBy(usages, q.code, q.userId) >= p.usageLimitPerUser then Some(AlreadyUsed)
      else if p.totalUsageLimit.Some? && p.totalUsageLimit.value != 0 && p.totalUsed >= p.totalUsageLimit.value
           then Some(LimitExceeded)
      else None
  }

  ghost function UsesByAt(usages: seq<Usage>, code: string, userId: string): set<int> {
    set i | 0 <= i < |usages| && usages[i].code == code && usages[i].userId == userId
  }

  ghost function UsesAt(usages: seq<Usage>, code: string): set<int> {
    set i | 0 <= i < |usages| && usages[i].code == code
  }

  /** The counts are numbers of usage rows. */
  lemma {:induction false} UsesByCounted(usages: seq<Usage>, code: string, userId: string)
    ensures UsesBy(usages, code, userId) == |UsesByAt(usages, code, userId)|
  {
    if usages == [] {
      assert UsesByAt(usages, code, userId) == {};
    } else {
      var n := |usages| - 1;
      UsesByCounted(usages[..n], code, userId);
      assert UsesByAt(usages[..n], code, userId) == UsesByAt(usages, code, userId) - {n};
    }
  }

  lemma {:induction false} UsesCounted(usages: seq<Usage>, code: string)
    ensures UsesOf(usages, code) == |UsesAt(usages, code)|
  {
    if usages == [] {
      assert UsesAt(usages, code) == {};
    } else {
      var n := |usages| - 1;
      UsesCounted(usages[..n], code);
      assert UsesAt(usages[..n], code) == UsesAt(usages, code) - {n};
    }
  }

  /** What an answer says about a request: each refusal if and only if its own check fails and all
      earlier ones pass, and otherwise the discount to the nearest whole amount and what is left. */
  ghost predicate Answers(promos: map<string, Promo>, usages: seq<Usage>, q: Request, now: int, r: Result) {
    && (r == Refused(NotFound) <==> q.code !in promos)
    && (q.code in promos ==>
          var p := promos[q.code];
          var inPeriod := p.validFrom <= now <= p.validUntil;
          var enough := p.minOrderValue <= q.orderValue;
          var applicable := q.context.None? || p.applicableTo == ALL || p.applicableTo == q.context.value;
          var userMay := |UsesByAt(usages, q.code, q.userId)| < p.usageLimitPerUser;
          var left := p.totalUsageLimit.None? || p.totalUsageLimit.value == 0
                      || p.totalUsed < p.totalUsageLimit.value;
          && (r == Refused(NotActive) <==> !p.isActive)
          && (r == Refused(NotInPeriod) <==> p.isActive && !inPeriod)
          && (r == Refused(BelowMinimum) <==> p.isActive && inPeriod && !enough)
          && (r == Refused(NotApplicable) <==> p.isActive && inPeriod && enough && !applicable)
          && (r == Refused(AlreadyUsed) <==> p.isActive && inPeriod && enough && applicable && !userMay)
          && (r == Refused(LimitExceeded) <==>
                p.isActive && inPeriod && enough && applicable && userMay && !left)
          && (r.Applies? <==> p.isActive && inPeriod && enough && applicable && userMay && left)
          && (r.Applies? ==> TakesOff(p, q.orderValue, r.discountAmount, r.finalAmount)))
  }

  /** The amounts of an order: the exact discount of each kind of promo, rounded to the nearest
      whole amount, halves up, and the rest of the order, if there is any. */
  predicate TakesOff(p: Promo, orderValue: real, discountAmount: int, finalAmount: real) {
    var part := orderValue * p.value / 100.0;
    var exact := match p.kind
                 case PERCENTAGE =>
                   if p.maxDiscount.Some? && p.maxDiscount.value < part then p.maxDiscount.value else part
                 case FIXED => if p.value < orderValue then p.value else orderValue
                 case FREE_RIDE => orderValue;
    && discountAmount as real - 0.5 <= exact < discountAmount as real + 0.5
    && finalAmount == if orderValue > discountAmount as real then orderValue - discountAmount as real else 0.0
  }

  lemma DiscountTakesOff(p: Promo, orderValue: real)
    ensures TakesOff(p, orderValue, Round(Discount(p, orderValue)), FinalAmount(p, orderValue))
  {
  }

  /** The checks in the order they are made, read as conditions. */
  lemma FailureExactly(promos: map<string, Promo>, usages: seq<Usage>, q: Request, now: int)
    ensures var f := FirstFailure(promos, usages, q, now);
            Answers(promos, usages, q, now,
                    if f.Some? then Refused(f.value)
                    else Applies(Round(Discount(promos[q.code], q.orderValue)),
                                 FinalAmount(promos[q.code], q.orderValue)))
  {
    hide Round, Discount, FinalAmount, TakesOff;
    UsesByCounted(usages, q.code, q.userId);
    if q.code in promos { DiscountTakesOff(promos[q.code], q.orderValue); }
  }

  /** The row was made while its promo was valid. */
  predicate MadeInPeriod(promos: map<string, Promo>, u: Usage) {
    u.code in promos && promos[u.code].validFrom <= u.usedAt <= promos[u.code].validUntil
  }

  ghost predicate WithinLimits(p: Promo, usages: seq<Usage>, code: string) {
    && p.totalUsed == UsesOf(usages, code)
    && (p.totalUsageLimit.Some? && p.totalUsageLimit.value > 0 ==> p.totalUsed <= p.totalUsageLimit.value)
    && forall user :: UsesBy(usages, code, user) == 0 || UsesBy(usages, code, user) <= p.usageLimitPerUser
  }

  /** One more use of a code that passed every check. */
  lemma UseKeepsLimits(promos: map<string, Promo>, usages: seq<Usage>, q: Request, now: int, amount: int)
    requires FirstFailure(promos, usages, q, now).None? && WithinLimits(promos[q.code], usages, q.code)
    ensures WithinLimits(promos[q.code].(totalUsed := promos[q.code].totalUsed + 1),
                         usages + [Usage(q.userId, q.code, amount, now)], q.code)
  {
  }

  lemma OtherUseKeepsLimits(p: Promo, usages: seq<Usage>, code: string, u: Usage)
    requires WithinLimits(p, usages, code) && u.code != code
    ensures WithinLimits(p, usages + [u], code)
  {
  }

  class PromoService {
    var promos: map<string, Promo>
    var usages: seq<Usage>

    /** The counter counts the usage rows, neither limit is exceeded, and every row was made
        inside its promo's period. Kept by every method, so true at the end of every run. */
    ghost predicate Valid()
      reads this
    {
      && (forall code :: code in promos ==> WithinLimits(promos[code], usages, code))
      && (forall i :: 0 <= i < |usages| ==> MadeInPeriod(promos, usages[i]))
    }

    constructor (promos: map<string, Promo>)
      requires forall code :: code in promos ==> promos[code].totalUsed == 0
      ensures Valid() && this.promos == promos && usages == []
    {
      this.promos, usages := promos, [];
    }

    method Validate(q: Request, now: int) returns (r: Result)
      ensures Answers(promos, usages, q, now, r)
      ensures FirstFailure(promos, usages, q, now).Some? ==>
                r == Refused(FirstFailure(promos, usages, q, now).value)
      ensures FirstFailure(promos, usages, q, now).None? ==>
                r == Applies(Round(Discount(promos[q.code], q.orderValue)), FinalAmount(promos[q.code], q.orderValue))
    {
      hide Answers, UsesBy, Round, Discount, FinalAmount, TakesOff;
      FailureExactly(promos, usages, q, now);
      if q.code !in promos { return Refused(NotFound); }
      var promo := promos[q.code];
      if !promo.isActive { return Refused(NotActive); }
      if promo.validFrom > now || promo.validUntil < now { return Refused(NotInPeriod); }
      if q.orderValue < promo.minOrderValue { return Refused(BelowMinimum); }
      if q.context.Some? && promo.applicableTo != ALL && promo.applicableTo != q.context.value {
        return Refused(NotApplicable);
      }
      var userUsageCount := UsesBy(usages, q.code, q.userId);
      if userUsageCount >= promo.usageLimitPerUser { return Refused(AlreadyUsed); }
      if promo.totalUsageLimit.Some? && promo.totalUsageLimit.value != 0 {
        if promo.totalUsed >= promo.totalUsageLimit.value { return Refused(LimitExceeded); }
      }
      var discountAmount, finalAmount := Amounts(promo, q.orderValue);
      return Applies(discountAmount, finalAmount);
    }

    /** The amounts that `validate` computes. */
    method Amounts(promo: Promo, orderValue: real) returns (rounded: int, finalAmount: real)
      ensures TakesOff(promo, orderValue, rounded, finalAmount)
      ensures rounded == Round(Discount(promo, orderValue)) && finalAmount == FinalAmount(promo, orderValue)
    {
      DiscountTakesOff(promo, orderValue);
      var discountAmount := 0.0;
      if promo.kind == PERCENTAGE {
        discountAmount := orderValue * promo.value / 100.0;
        if promo.maxDiscount.Some? {
          discountAmount := Min(discountAmount, promo.maxDiscount.value);
        }
      } else if promo.kind == FIXED {
        discountAmount := Min(promo.value, orderValue);
      } else if promo.kind == FREE_RIDE {
        discountAmount := orderValue;
      }
      rounded := Round(discountAmount);
      var rest := orderValue - rounded as real;
      finalAmount := if rest > 0.0 then rest else 0.0;
    }

    method Apply(q: Request, now: int) returns (r: Result)
      requires Valid()
      modifies this
      ensures Valid()
      ensures Answers(old(promos), old(usages), q, now, r)
      ensures r.Applies? ==>
        && q.code in old(promos)
        && usages == old(usages) + [Usage(q.userId, q.code, r.discountAmount, now)]
        && promos == old(promos)[q.code :=
             old(promos)[q.code].(totalUsed := old(promos)[q.code].totalUsed + 1)]
      ensures r.Refused? ==> promos == old(promos) && usages == old(usages)
    {
      hide WithinLimits, FirstFailure, Discount, TakesOff;
      r := Validate(q, now);
      if r.Refused? { return; }
      assert promos[q.code].validFrom <= now <= promos[q.code].validUntil;
      var usage := Usage(q.userId, q.code, r.discountAmount, now);
      UseKeepsLimits(promos, usages, q, now, r.discountAmount);
      forall code | code in promos && code != q.code ensures WithinLimits(promos[code], usages + [usage], code) {
        OtherUseKeepsLimits(promos[code], usages, code, usage);
      }
      promos := promos[q.code := promos[q.code].(totalUsed := promos[q.code].totalUsed + 1)];
      usages := usages + [usage];
      forall i | 0 <= i < |usages| ensures MadeInPeriod(promos, usages[i]) {
        if i < |old(usages)| { assert MadeInPeriod(old(promos), old(usages)[i]); }
      }
    }

    /** From then on `validate` refuses the code. */
    method Deactivate(code: string)
      requires Valid()
      modifies this`promos
      ensures Valid()
      ensures promos == if code in old(promos) then old(promos)[code := old(promos)[code].(isActive := false)]
                        else old(promos)
    {
      if code in promos {
        promos := promos[code := promos[code].(isActive := false)];
      }
      forall i | 0 <= i < |usages| ensures MadeInPeriod(promos, usages[i]) {
        assert MadeInPeriod(old(promos), usages[i]);
      }
      forall c | c in promos ensures WithinLimits(promos[c], usages, c) {
        assert WithinLimits(old(promos)[c], usages, c);
      }
    }
  }
}
