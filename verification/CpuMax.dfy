/** The CFS quota and period of the cpu controller: `cpu.max` on v2, two files on v1. */
module CpuMax {
  import opened Decimal
  import opened Integers
  import opened Text
  import opened Wrappers

  datatype MaxValue = Max | Value(n: I64) {
    function ToI64(): I64 {
      match this case Max => -1 case Value(n) => n
    }

    function Display(): string {
      match this case Max => "max" case Value(n) => PrintInt(n)
    }
  }

  function ParseMaxValue(s: string): Option<MaxValue> {
    if Trim(s) == "max" then Some(Max)
    else match ParseI64(Trim(s)) case Some(n) => Some(Value(n)) case None => None
  }

  datatype Bandwidth = Bandwidth(quota: MaxValue, period: U64)

  /** `parse_cfs_quota_and_period` on the content of cpu.max. */
  function Parse(content: string): Option<Bandwidth> {
    var fields := Split(Trim(content), {' '});
    if |fields| != 2 then None
    else
      match (ParseMaxValue(fields[0]), ParseU64(fields[1]))
      case (Some(q), Some(p)) => Some(Bandwidth(q, p))
      case _ => None
  }

  /** What `cfs_quota` makes of the content of cpu.max. */
  function ReadQuota(content: string): Option<I64> {
    match Parse(content) case Some(b) => Some(b.quota.ToI64()) case None => None
  }

  function ReadPeriod(content: string): Option<U64> {
    match Parse(content) case Some(b) => Some(b.period) case None => None
  }

  /** A quota that a caller sets: everything that is not positive means no limit. */
  function Requested(q: I64): MaxValue {
    if q > 0 then Value(q) else Max
  }

  function Updated(b: Bandwidth, quota: Option<I64>, period: Option<U64>): Bandwidth {
    Bandwidth(match quota case Some(q) => Requested(q) case None => b.quota,
              match period case Some(p) => p case None => b.period)
  }

  function Line(b: Bandwidth): string {
    b.quota.Display() + " " + PrintNat(b.period)
  }

  /** What is in the file after the kernel stores or refuses one write; it ends a value with a line break. */
  function Written(content: string, text: string, accepted: bool): string {
    if accepted then text + "\n" else content
  }

  class CpuController {
    const v2: bool
    var cpuMax: string
    var quotaUs: string
    var periodUs: string

    constructor (v2: bool, cpuMax: string, quotaUs: string, periodUs: string)
      ensures this.v2 == v2 && this.cpuMax == cpuMax && this.quotaUs == quotaUs && this.periodUs == periodUs
    {
      this.v2, this.cpuMax, this.quotaUs, this.periodUs := v2, cpuMax, quotaUs, periodUs;
    }

    /** `accepts` is the kernel's answer to each text it may be given by this call. */
    method SetCfsQuotaAndPeriod(quota: Option<I64>, period: Option<U64>, accepts: string -> bool) returns (ok: bool)
      modifies this
      ensures v2 ==>
                && quotaUs == old(quotaUs) && periodUs == old(periodUs)
                && (Parse(old(cpuMax)).None? ==> !ok && cpuMax == old(cpuMax))
                && (Parse(old(cpuMax)).Some? ==>
                      var line := Line(Updated(Parse(old(cpuMax)).value, quota, period));
                      ok == accepts(line) && cpuMax == Written(old(cpuMax), line, accepts(line)))
      // The text of the line: what the caller sets, and for the rest what the file held.
      ensures v2 && Parse(old(cpuMax)).Some? ==>
                var b := Parse(old(cpuMax)).value;
                var first := if quota.Some? then (if quota.value > 0 then PrintInt(quota.value) else "max")
                             else if b.quota == Max then "max" else PrintInt(b.quota.n);
                var line := first + " " + PrintNat(if period.Some? then period.value else b.period);
                ok == accepts(line) && cpuMax == if ok then line + "\n" else old(cpuMax)
      ensures !v2 ==>
                && cpuMax == old(cpuMax)
                && quotaUs == (if quota.None? then old(quotaUs)
                               else Written(old(quotaUs), PrintInt(quota.value), accepts(PrintInt(quota.value))))
                && (ok || periodUs == old(periodUs))
                && (ok ==> periodUs == if period.Some? then PrintNat(period.value) + "\n" else old(periodUs))
                && (ok <==> (quota.Some? ==> accepts(PrintInt(quota.value)))
                            && (period.Some? ==> accepts(PrintNat(period.value))))
    {
      if !v2 {
        if quota.Some? {
          ok := accepts(PrintInt(quota.value));
          quotaUs := Written(quotaUs, PrintInt(quota.value), ok);
          if !ok {
            return;
          }
        }
        if period.Some? {
          ok := accepts(PrintNat(period.value));
          periodUs := Written(periodUs, PrintNat(period.value), ok);
          if !ok {
            return;
          }
        }
        return true;
      }

      var current := Parse(cpuMax);
      if current.None? {
        return false;
      }
      var newQuota: string;
      if quota.Some? {
        newQuota := if quota.value > 0 then PrintInt(quota.value) else "max";
      } else {
        newQuota := current.value.quota.Display();
      }
      var newPeriod := PrintNat(if period.Some? then period.value else current.value.period);
      var line := newQuota + " " + newPeriod;
      ok := accepts(line);
      cpuMax := Written(cpuMax, line, ok);
    }

    method CfsQuota() returns (r: Option<I64>)
      ensures v2 ==> r == ReadQuota(cpuMax)
      ensures !v2 ==> r == ParseI64(Trim(quotaUs))
    {
      if v2 {
        match Parse(cpuMax) {
          case None => r := None;
          case Some(b) => r := Some(b.quota.ToI64());
        }
      } else {
        r := ParseI64(Trim(quotaUs));
      }
    }

    method CfsPeriod() returns (r: Option<U64>)
      ensures v2 ==> r == ReadPeriod(cpuMax)
      ensures !v2 ==> r == ParseU64(Trim(periodUs))
    {
      if v2 {
        match Parse(cpuMax) {
          case None => r := None;
          case Some(b) => r := Some(b.period);
        }
      } else {
        r := ParseU64(Trim(periodUs));
      }
    }
  }

  // Reading back what was written.

  lemma {:induction false} TrimNothing(s: string)
    requires s != "" && s[0] !in WHITESPACE && s[|s| - 1] !in WHITESPACE
    ensures Trim(s) == s && Trim(s + "\n") == s
  {
    assert (s + "\n")[..|s|] == s;
  }

  lemma NumberEnds(n: int)
    ensures var s := PrintInt(n); s[0] !in WHITESPACE && s[|s| - 1] !in WHITESPACE && s != "max"
  {
    var digits := PrintNat(if n < 0 then -n else n);
    assert IsDigit(digits[0]) && IsDigit(digits[|digits| - 1]);
  }

  lemma DisplayRoundTrip(m: MaxValue)
    ensures var s := m.Display();
            && s != "" && s[0] !in WHITESPACE && s[|s| - 1] !in WHITESPACE && Free(s, {' '})
            && ParseMaxValue(s) == Some(m)
  {
    match m {
      case Max =>
        TrimNothing("max");
      case Value(n) =>
        NumberEnds(n);
        TrimNothing(PrintInt(n));
        PrintHasNoSeparator(n, ' ');
        SignedRoundTrip(n, I64_MAX);
    }
  }

  /** Every line the setters write parses, with or without the kernel's line break, as what it says. */
  lemma LineRoundTrip(b: Bandwidth)
    ensures Parse(Line(b)) == Some(b) && Parse(Line(b) + "\n") == Some(b)
  {
    var q, p := b.quota.Display(), PrintNat(b.period);
    DisplayRoundTrip(b.quota);
    NumberEnds(b.period);
    TrimNothing(Line(b));
    PrintHasNoSeparator(b.period, ' ');
    SplitFree(p, {' '});
    SplitConcat(q, ' ', p, {' '});
    UnsignedRoundTrip(b.period, U64_MAX);
  }

  /** A quota field is "max" or a number, with any white space around it; all else is an error. */
  lemma MaxValueIsExact(a: string, s: string, b: string)
    requires Blank(a) && Blank(b) && Tight(s)
    ensures ParseMaxValue(a + s + b) == Some(Max) <==> s == "max"
    ensures forall n: I64 :: ParseMaxValue(a + s + b) == Some(Value(n)) <==> s != "max" && ParseI64(s) == Some(n)
  {
    TrimBlank(a, s, b);
  }

  /** The content is two fields with one space between them, and white space around; all else is an error. */
  lemma ContentIsExact(a: string, quota: string, period: string, b: string)
    requires Blank(a) && Blank(b) && Free(quota, {' '}) && Free(period, {' '})
    requires quota != "" && quota[0] !in WHITESPACE && period != "" && period[|period| - 1] !in WHITESPACE
    ensures Parse(a + (quota + " " + period) + b)
              == if ParseMaxValue(quota).Some? && ParseU64(period).Some?
                 then Some(Bandwidth(ParseMaxValue(quota).value, ParseU64(period).value)) else None
  {
    TrimBlank(a, quota + " " + period, b);
    SplitFree(period, {' '});
    SplitConcat(quota, ' ', period, {' '});
    assert quota + [' '] + period == quota + " " + period;
  }

  lemma OtherFieldCounts(a: string, s: string, b: string)
    requires Blank(a) && Blank(b) && Tight(s) && Count(s, {' '}) != 1
    ensures Parse(a + s + b) == None
  {
    TrimBlank(a, s, b);
    SplitCount(s, {' '});
  }

  /** A value written to a v1 file is read back. */
  lemma V1RoundTrip(n: int)
    ensures -0x8000_0000_0000_0000 <= n <= I64_MAX ==> ParseI64(Trim(PrintInt(n) + "\n")) == Some(n)
    ensures 0 <= n <= U64_MAX ==> ParseU64(Trim(PrintInt(n) + "\n")) == Some(n)
  {
    NumberEnds(n);
    TrimNothing(PrintInt(n));
    if -0x8000_0000_0000_0000 <= n <= I64_MAX {
      SignedRoundTrip(n, I64_MAX);
    }
    if 0 <= n <= U64_MAX {
      UnsignedRoundTrip(n, U64_MAX);
    }
  }

  // Runs of setter calls on v2, each stored or refused by the kernel.

  datatype Call = Call(quota: Option<I64>, period: Option<U64>, accepted: bool)

  /** The file after one call. */
  function Called(content: string, c: Call): string {
    match Parse(content)
    case None => content
    case Some(b) => Written(content, Line(Updated(b, c.quota, c.period)), c.accepted)
  }

  function After(content: string, calls: seq<Call>): string {
    if calls == [] then content else Called(After(content, calls[..|calls| - 1]), calls[|calls| - 1])
  }

  /** The quota of the last accepted call that set one. */
  function AcceptedQuota(calls: seq<Call>): Option<I64> {
    if calls == [] then None
    else
      var c := calls[|calls| - 1];
      if c.accepted && c.quota.Some? then c.quota else AcceptedQuota(calls[..|calls| - 1])
  }

  function AcceptedPeriod(calls: seq<Call>): Option<U64> {
    if calls == [] then None
    else
      var c := calls[|calls| - 1];
      if c.accepted && c.period.Some? then c.period else AcceptedPeriod(calls[..|calls| - 1])
  }

  /** After any run the file parses, and holds the last accepted quota and the last accepted period. */
  lemma {:induction false} RunKeepsLastAccepted(content: string, calls: seq<Call>)
    requires Parse(content).Some?
    ensures Parse(After(content, calls))
              == Some(Updated(Parse(content).value, AcceptedQuota(calls), AcceptedPeriod(calls)))
  {
    if calls != [] {
      var c := calls[|calls| - 1];
      RunKeepsLastAccepted(content, calls[..|calls| - 1]);
      LineRoundTrip(Updated(Parse(After(content, calls[..|calls| - 1])).value, c.quota, c.period));
    }
  }

  method CallOne(c: CpuController, call: Call)
    requires c.v2
    modifies c
    ensures c.cpuMax == Called(old(c.cpuMax), call)
    ensures c.quotaUs == old(c.quotaUs) && c.periodUs == old(c.periodUs)
  {
    var accepted := call.accepted;
    var _ := c.SetCfsQuotaAndPeriod(call.quota, call.period, _ => accepted);
  }

  method CallAll(c: CpuController, calls: seq<Call>)
    requires c.v2
    modifies c
    ensures c.cpuMax == After(old(c.cpuMax), calls)
    ensures c.quotaUs == old(c.quotaUs) && c.periodUs == old(c.periodUs)
  {
    for i := 0 to |calls|
      invariant c.cpuMax == After(old(c.cpuMax), calls[..i])
      invariant c.quotaUs == old(c.quotaUs) && c.periodUs == old(c.periodUs)
    {
      assert calls[..i + 1][..i] == calls[..i];
      CallOne(c, calls[i]);
    }
    assert calls[..|calls|] == calls;
  }

  /**
   * A run of setter calls on a v2 controller, each stored or refused, and what both readers then
   * return: the last accepted quota, -1 if it is not positive, and the last accepted period.
   */
  method CallAndRead(c: CpuController, calls: seq<Call>) returns (quota: Option<I64>, period: Option<U64>)
    requires c.v2 && Parse(c.cpuMax).Some?
    modifies c
    ensures c.cpuMax == After(old(c.cpuMax), calls)
    ensures c.quotaUs == old(c.quotaUs) && c.periodUs == old(c.periodUs)
    ensures quota == match AcceptedQuota(calls)
                     case Some(q) => Some(if q > 0 then q else -1)
                     case None => ReadQuota(old(c.cpuMax))
    ensures period == if AcceptedPeriod(calls).Some? then AcceptedPeriod(calls) else ReadPeriod(old(c.cpuMax))
  {
    RunKeepsLastAccepted(c.cpuMax, calls);
    CallAll(c, calls);
    quota := c.CfsQuota();
    period := c.CfsPeriod();
  }

  /** Setting the quota and setting the period commute when both are accepted. */
  lemma SettersCommute(content: string, q: I64, p: U64)
    requires Parse(content).Some?
    ensures var quota, period := Call(Some(q), None, true), Call(None, Some(p), true);
            After(content, [quota, period]) == After(content, [period, quota])
  {
    var quota, period := Call(Some(q), None, true), Call(None, Some(p), true);
    var b := Parse(content).value;
    assert [quota, period][..1] == [quota] && [period, quota][..1] == [period];
    assert [quota][..0] == [] && [period][..0] == [];
    LineRoundTrip(Updated(b, Some(q), None));
    LineRoundTrip(Updated(b, None, Some(p)));
    assert After(content, [quota]) == Line(Updated(b, Some(q), None)) + "\n";
    assert After(content, [period]) == Line(Updated(b, None, Some(p))) + "\n";
  }

  /** A file that does not parse is never touched: every setter call fails on it. */
  lemma {:induction false} UnparsableStays(content: string, calls: seq<Call>)
    requires Parse(content).None?
    ensures After(content, calls) == content
  {
    if calls != [] {
      UnparsableStays(content, calls[..|calls| - 1]);
    }
  }
}
