/** The CPU quota that `SystemdManager::set_cpu` hands to systemd, in microseconds a second. */
module CpuQuota {
  import opened Integers
  import opened Wrappers

  const TWO_64: nat := U64_MAX + 1

  const DEFAULT_CPU_QUOTA_PERIOD: U64 := 100_000
  /** systemd's USEC_INFINITY: no limit. */
  const INFINITY: U64 := TWO_64 - 1
  const STEP := 10_000

  datatype Property = CpuQuotaPeriodUSec(usec: U64) | CpuQuotaPerSecUSec(usec: U64)

  function MsToUs(ms: nat): nat {
    ms * 1_000
  }

  function SToUs(s: nat): nat {
    s * 1_000_000
  }

  /** Multiplication of the release build's u64: it wraps. */
  function Product(a: nat, b: nat): U64 {
    (a * b) % TWO_64
  }

  function Rate(quota: I64, period: U64): (rate: U64)
    requires quota > 0 && period > 0
  {
    var product := Product(quota, SToUs(1));
    QuotientFits(product, period);
    product / period
  }

  /** The quota property for a positive quota. */
  function Quota(quota: I64, period: U64): U64
    requires quota > 0 && period > 0
  {
    var rate := Rate(quota, period);
    if rate % MsToUs(10) != 0 then Product(rate / MsToUs(10) + 1, MsToUs(10)) else rate
  }

  /** The properties that the period and the quota of the resources come to. */
  function Properties(period: U64, quota: I64): seq<Property> {
    (if period != 0 then [CpuQuotaPeriodUSec(period)] else [])
    + if period == 0 && quota == 0 then []
      else if quota <= 0 then [CpuQuotaPerSecUSec(INFINITY)]
      else [CpuQuotaPerSecUSec(Quota(quota, if period == 0 then DEFAULT_CPU_QUOTA_PERIOD else period))]
  }

  function EffectivePeriod(period: Option<U64>): (p: U64)
    ensures p > 0
  {
    if period.Some? && period.value != 0 then period.value else DEFAULT_CPU_QUOTA_PERIOD
  }

  method SetCpu(props: seq<Property>, linuxPeriod: Option<U64>, linuxQuota: Option<I64>) returns (out: seq<Property>)
    ensures out == props + Properties(match linuxPeriod case Some(p) => p case None => 0,
                                      match linuxQuota case Some(q) => q case None => 0)
    // The same by values: what is appended for a period and a quota set or not set.
    ensures linuxPeriod in {None, Some(0)} && linuxQuota in {None, Some(0)} ==> out == props
    ensures linuxPeriod in {None, Some(0)} && linuxQuota.Some? && linuxQuota.value < 0 ==>
              out == props + [CpuQuotaPerSecUSec(0xFFFF_FFFF_FFFF_FFFF)]
    ensures linuxPeriod.Some? && linuxPeriod.value != 0 && (linuxQuota.Some? ==> linuxQuota.value <= 0) ==>
              out == props + [CpuQuotaPeriodUSec(linuxPeriod.value), CpuQuotaPerSecUSec(0xFFFF_FFFF_FFFF_FFFF)]
    ensures linuxPeriod in {None, Some(0)} && linuxQuota.Some? && linuxQuota.value > 0 ==>
              out[..|out| - 1] == props && out[|out| - 1].CpuQuotaPerSecUSec?
    ensures linuxPeriod.Some? && linuxPeriod.value != 0 && linuxQuota.Some? && linuxQuota.value > 0 ==>
              out[..|out| - 1] == props + [CpuQuotaPeriodUSec(linuxPeriod.value)]
              && out[|out| - 1].CpuQuotaPerSecUSec?
    ensures linuxQuota.Some? && linuxQuota.value > 0 && Fits(linuxQuota.value) ==>
              && out != [] && out[|out| - 1].CpuQuotaPerSecUSec?
              && IsRoundedUp(out[|out| - 1].usec, ExactRate(linuxQuota.value, EffectivePeriod(linuxPeriod)))
              && EffectivePeriod(linuxPeriod) == if linuxPeriod in {None, Some(0)} then 100_000 else linuxPeriod.value
  {
    out := props;
    var period: U64 := match linuxPeriod case Some(p) => p case None => 0;
    var quota: I64 := match linuxQuota case Some(q) => q case None => 0;
    if period != 0 {
      out := out + [CpuQuotaPeriodUSec(period)];
    }
    if period != 0 || quota != 0 {
      var quotaSystemd: U64 := INFINITY;
      var p := period;
      if quota > 0 {
        if p == 0 {
          p := DEFAULT_CPU_QUOTA_PERIOD;
        }
        QuotientFits(Product(quota, SToUs(1)), p);
        quotaSystemd := Product(quota, SToUs(1)) / p;
        if quotaSystemd % MsToUs(10) != 0 {
          quotaSystemd := Product(quotaSystemd / MsToUs(10) + 1, MsToUs(10));
        }
      }
      out := out + [CpuQuotaPerSecUSec(quotaSystemd)];
      if quota > 0 && Fits(quota) {
        QuotaIsRoundedUp(quota, p);
      }
    }
  }

  // Division facts.

  lemma Floor(a: nat, p: nat)
    requires p > 0
    ensures p * (a / p) <= a < p * (a / p) + p
  {
  }

  lemma {:induction false} Scale(p: nat, a: nat, b: nat)
    requires a <= b
    ensures p * a <= p * b
  {
    if a < b {
      Scale(p, a, b - 1);
      assert p * b == p * (b - 1) + p;
    }
  }

  lemma FloorAtLeast(a: nat, p: nat, k: nat)
    requires p > 0
    ensures k <= a / p <==> p * k <= a
  {
    Floor(a, p);
    if k <= a / p {
      Scale(p, k, a / p);
    } else {
      Scale(p, a / p + 1, k);
      assert p * (a / p + 1) == p * (a / p) + p;
    }
  }

  lemma FloorMonotone(a: nat, b: nat, p: nat, q: nat)
    requires a <= b && 0 < q <= p
    ensures a / p <= b / q
  {
    var k := a / p;
    Floor(a, p);
    Scale(k, q, p);
    assert k * p == p * k && k * q == q * k;
    FloorAtLeast(b, q, k);
  }

  lemma QuotientFits(a: nat, p: nat)
    requires p > 0
    ensures 0 <= a / p <= a
  {
    FloorMonotone(a, a, p, 1);
    assert a / 1 == a;
  }

  // What the rounding promises.

  /** The floored rate in microseconds a second, without wrapping. */
  function ExactRate(quota: I64, period: U64): (rate: nat)
    requires quota > 0 && period > 0
  {
    QuotientFits(quota * 1_000_000, period);
    quota * 1_000_000 / period
  }

  /** q is the least multiple of the step that is not below the rate. */
  ghost predicate IsRoundedUp(q: nat, rate: nat) {
    q % STEP == 0 && rate <= q < rate + STEP
  }

  lemma RoundedUpIsLeast(q: nat, rate: nat, m: nat)
    requires IsRoundedUp(q, rate) && m % STEP == 0 && rate <= m
    ensures q <= m
  {
  }

  /** The product fits the 64 bits exactly up to this quota. */
  predicate Fits(quota: I64) {
    quota * 1_000_000 < TWO_64
  }

  lemma RoundUpFits(rate: nat)
    requires rate < TWO_64 / 2 || (rate < TWO_64 && rate % STEP == 0)
    ensures var q := if rate % STEP != 0 then Product(rate / STEP + 1, STEP) else rate; IsRoundedUp(q, rate)
  {
    if rate % STEP != 0 {
      var q := (rate / STEP + 1) * STEP;
      assert q < TWO_64;
    }
  }

  lemma RateIsExact(quota: I64, period: U64)
    requires quota > 0 && period > 0 && Fits(quota)
    ensures Rate(quota, period) == ExactRate(quota, period)
  {
    assert Product(quota, SToUs(1)) == quota * 1_000_000;
  }

  lemma AtMostHalf(a: nat, period: nat)
    requires period > 1
    ensures a / period <= a / 2
  {
    FloorMonotone(a, a, period, 2);
  }

  /** A whole product is a multiple of the step; a divided one leaves room for rounding up. */
  lemma RateLeavesRoom(quota: I64, period: U64)
    requires quota > 0 && period > 0 && Fits(quota)
    ensures var rate := ExactRate(quota, period); rate < TWO_64 / 2 || (rate < TWO_64 && rate % STEP == 0)
  {
    if period > 1 {
      AtMostHalf(quota * 1_000_000, period);
    } else {
      WholeRate(quota);
    }
  }

  lemma Undivided(a: nat)
    ensures a / 1 == a
  {
  }

  lemma {:induction false} Multiple(k: nat)
    ensures (k * STEP) % STEP == 0
  {
    if k > 0 {
      Multiple(k - 1);
      assert k * STEP == (k - 1) * STEP + STEP;
    }
  }

  lemma WholeRate(quota: I64)
    requires quota > 0
    ensures ExactRate(quota, 1) == quota * 1_000_000 && ExactRate(quota, 1) % STEP == 0
  {
    Undivided(quota * 1_000_000);
    Multiple(quota * 100);
  }

  /** If the product fits, nothing overflows and the quota is the floored rate rounded up to a step. */
  lemma QuotaIsRoundedUp(quota: I64, period: U64)
    requires quota > 0 && period > 0 && Fits(quota)
    ensures IsRoundedUp(Quota(quota, period), ExactRate(quota, period))
    // The same in numbers.
    ensures Quota(quota, period) % 10_000 == 0
    ensures quota * 1_000_000 / period <= Quota(quota, period) < quota * 1_000_000 / period + 10_000
    ensures Quota(quota, period) != 0xFFFF_FFFF_FFFF_FFFF
    ensures period <= quota * 1_000_000 ==> Quota(quota, period) > 0
  {
    RateIsExact(quota, period);
    RateLeavesRoom(quota, period);
    RoundUpFits(ExactRate(quota, period));
    if period <= quota * 1_000_000 {
      FloorAtLeast(quota * 1_000_000, period, 1);
    }
  }

  /** More quota never gives less, a longer period never gives more. */
  lemma QuotaIsMonotone(q1: I64, p1: U64, q2: I64, p2: U64)
    requires 0 < q1 <= q2 && 0 < p2 <= p1 && Fits(q2)
    ensures Quota(q1, p1) <= Quota(q2, p2)
  {
    QuotaIsRoundedUp(q1, p1);
    QuotaIsRoundedUp(q2, p2);
    FloorMonotone(q1 * 1_000_000, q2 * 1_000_000, p1, p2);
    RoundedUpIsLeast(Quota(q1, p1), ExactRate(q1, p1), Quota(q2, p2));
  }

  /** For every period below some 58 years, the quota is right exactly if the product fits. */
  lemma QuotaIsRightIffItFits(quota: I64, period: U64)
    requires quota > 0 && 0 < period <= TWO_64 / STEP
    ensures IsRoundedUp(Quota(quota, period), ExactRate(quota, period)) <==> Fits(quota)
  {
    if Fits(quota) {
      QuotaIsRoundedUp(quota, period);
    } else {
      var product := quota * 1_000_000;
      var wrapped := Product(quota, SToUs(1));
      assert wrapped + TWO_64 <= product;
      var rate := Rate(quota, period);
      Floor(wrapped, period);
      Scale(period, period, TWO_64 / STEP);
      // The true rate is at least a whole step above the one computed from the wrapped product.
      assert period * (rate + STEP) == period * rate + period * STEP;
      assert period * (rate + STEP) <= product;
      FloorAtLeast(product, period, rate + STEP);
      assert Quota(quota, period) < rate + STEP;
    }
  }

  /** With a longer period the wrap can go unnoticed, so the bound on the period is needed. */
  lemma LongPeriodHidesWrap()
    ensures var q, p := 27_670_116_110_565, 0x8000_0000_0000_0000;
            !Fits(q) && IsRoundedUp(Quota(q, p), ExactRate(q, p))
  {
    var q: I64, p: U64 := 27_670_116_110_565, 0x8000_0000_0000_0000;
    assert Product(q, SToUs(1)) == 9_223_372_036_855_448_384;
    assert Rate(q, p) == 1 && ExactRate(q, p) == 3;
    assert Product(1, MsToUs(10)) == STEP;
  }

  /** One microsecond a second too much for the 64 bits, and the quota is tiny. */
  lemma WrappedQuota()
    ensures !Fits(18_446_744_073_710) && Quota(18_446_744_073_710, 100_000) == 10_000
  {
    var q: I64 := 18_446_744_073_710;
    assert Product(q, SToUs(1)) == 448_384;
    assert Rate(q, 100_000) == 4;
  }
}
