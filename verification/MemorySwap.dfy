/** `set_mem_and_memswap_v1`: the write order of the memory and memory+swap limits. */
module MemorySwap {
  import opened Integers
  import opened Wrappers

  const PAGE := 4096
  /** The largest number of pages a limit can hold; it stands for "unlimited". */
  const MAX_PAGES := I64_MAX / PAGE

  /** Both limits in pages. The kernel keeps the first within the second. */
  datatype Limits = Limits(memory: nat, memsw: nat)

  predicate Valid(s: Limits) {
    s.memory <= s.memsw <= MAX_PAGES
  }

  /** The pages a written value comes to: rounded down, with -1 for unlimited. */
  function Pages(v: I64): nat
    requires v >= -1
  {
    if v == -1 then MAX_PAGES else v / PAGE
  }

  /** A write to memory.limit_in_bytes or memory.memsw.limit_in_bytes. */
  datatype Write = Memory(v: I64) | Memsw(v: I64)

  /** What the kernel makes of one write; None if it is refused. */
  function Perform(s: Limits, w: Write): Option<Limits> {
    if w.v < -1 then None
    else
      match w
      case Memory(v) => if Pages(v) <= s.memsw then Some(s.(memory := Pages(v))) else None
      case Memsw(v) => if s.memory <= Pages(v) then Some(s.(memsw := Pages(v))) else None
  }

  /** The limits once all writes were taken, or those at the first refusal. */
  function Run(s: Limits, writes: seq<Write>): (bool, Limits)
    decreases |writes|
  {
    if writes == [] then (true, s)
    else
      match Perform(s, writes[0])
      case None => (false, s)
      case Some(next) => Run(next, writes[1..])
  }

  /** The swap value the call works with: unlimited memory without a swap value frees both. */
  function Normalize(limit: I64, swap: I64): I64 {
    if limit == -1 && swap == 0 then -1 else swap
  }

  class MemController {
    var limits: Limits

    constructor (limits: Limits)
      ensures this.limits == limits
    {
      this.limits := limits;
    }

    /** Writing memory.limit_in_bytes. */
    method SetLimit(v: I64) returns (ok: bool)
      requires Valid(limits)
      modifies this
      ensures Valid(limits)
      ensures match Perform(old(limits), Memory(v))
              case None => !ok && limits == old(limits)
              case Some(next) => ok && limits == next
    {
      ok := v >= -1 && Pages(v) <= limits.memsw;
      if ok {
        limits := limits.(memory := Pages(v));
      }
    }

    /** Writing memory.memsw.limit_in_bytes. */
    method SetMemswapLimit(v: I64) returns (ok: bool)
      requires Valid(limits)
      modifies this
      ensures Valid(limits)
      ensures match Perform(old(limits), Memsw(v))
              case None => !ok && limits == old(limits)
              case Some(next) => ok && limits == next
    {
      ok := v >= -1 && Pages(v) >= limits.memory;
      if ok {
        limits := limits.(memsw := Pages(v));
      }
    }

    /**
     * The call succeeds exactly if the target is one the kernel can hold at all; the state it starts
     * from matters only for a value that is not set. A refused call leaves the limits as they were,
     * or one of them, the first to be written, at its target.
     */
    method SetMemAndMemswap(limit: I64, swap: I64) returns (ok: bool)
      requires Valid(limits)
      modifies this
      ensures Valid(limits)
      ensures ok <==> Feasible(old(limits), limit, swap)
      ensures limits == if ok then Target(old(limits), limit, swap) else Remains(old(limits), limit, swap)
      // The same in numbers.
      ensures ok ==>
                && limits.memory == (if limit > 0 then limit / 4096
                                     else if limit == 0 then old(limits).memory else MAX_PAGES)
                && limits.memsw == (if swap > 0 then swap / 4096
                                    else if swap == 0 && limit != -1 then old(limits).memsw else MAX_PAGES)
    {
      var swapLimit := swap;
      if limit == -1 && swapLimit == 0 {
        swapLimit := -1;
      }

      if limit != 0 && swapLimit != 0 {
        var limitActual := limits.memory * PAGE;
        if swapLimit == -1 || limitActual < swapLimit {
          ok := SetMemswapLimit(swapLimit);
          if !ok {
            return;
          }
          ok := SetLimit(limit);
          return;
        }
      }

      if limit != 0 {
        ok := SetLimit(limit);
        if !ok {
          return;
        }
      }
      if swapLimit != 0 {
        ok := SetMemswapLimit(swapLimit);
        if !ok {
          return;
        }
      }
      ok := true;
    }
  }

  /** The limits that the two values ask for, where 0 keeps what is there. */
  function Target(s: Limits, limit: I64, swap: I64): Limits
    requires limit >= -1 && swap >= -1
  {
    Limits(if limit == 0 then s.memory else Pages(limit),
           if Normalize(limit, swap) == 0 then s.memsw else Pages(Normalize(limit, swap)))
  }

  predicate Feasible(s: Limits, limit: I64, swap: I64) {
    limit >= -1 && swap >= -1 && Target(s, limit, swap).memory <= Target(s, limit, swap).memsw
  }

  /** What a refused call leaves. Swap grows before the memory limit is tried, memory shrinks before swap is. */
  function Remains(s: Limits, limit: I64, swap: I64): Limits {
    if limit != 0 && (swap == -1 || swap > s.memory * PAGE) then s.(memsw := Pages(swap))
    else if limit != 0 && swap != 0 && limit >= -1 && Pages(limit) <= s.memsw then s.(memory := Pages(limit))
    else s
  }

  /** Which calls succeed, in numbers, for every combination of values set and not set. */
  lemma FeasibleInNumbers(s: Limits, limit: I64, swap: I64)
    requires Valid(s)
    ensures limit < -1 || swap < -1 ==> !Feasible(s, limit, swap)
    ensures limit > 0 && swap > 0 ==> (Feasible(s, limit, swap) <==> limit / 4096 <= swap / 4096)
    ensures limit > 0 && swap == 0 ==> (Feasible(s, limit, swap) <==> limit / 4096 <= s.memsw)
    ensures limit == 0 && swap > 0 ==> (Feasible(s, limit, swap) <==> s.memory <= swap / 4096)
    ensures limit == 0 && swap == 0 ==> Feasible(s, limit, swap)
    ensures limit == -1 && swap == 0 ==> Feasible(s, limit, swap)
    ensures limit == -1 && swap > 0 ==> (Feasible(s, limit, swap) <==> swap / 4096 == 0x7FFF_FFFF_FFFF_FFFF / 4096)
    ensures limit >= -1 && swap == -1 ==> Feasible(s, limit, swap)
  {
    if limit > 0 {
      PagesBound(limit);
    }
    if swap > 0 {
      PagesBound(swap);
    }
  }

  lemma PagesBound(v: I64)
    requires v >= 0
    ensures 0 <= v / PAGE <= MAX_PAGES
  {
  }

  /** What a refused call leaves, in numbers: the first write done if it was taken, and nothing else. */
  lemma RemainsInNumbers(s: Limits, limit: I64, swap: I64)
    requires Valid(s) && !Feasible(s, limit, swap)
    ensures limit == 0 || swap == 0 ==> Remains(s, limit, swap) == s
    ensures limit != 0 && (swap == -1 || swap > s.memory * 4096) ==>
              Remains(s, limit, swap) == Limits(s.memory, if swap == -1 then MAX_PAGES else swap / 4096)
    ensures limit > 0 && swap != 0 && swap != -1 && swap <= s.memory * 4096 && limit / 4096 <= s.memsw ==>
              Remains(s, limit, swap) == Limits(limit / 4096, s.memsw)
    ensures limit > 0 && swap != 0 && swap != -1 && swap <= s.memory * 4096 && limit / 4096 > s.memsw ==>
              Remains(s, limit, swap) == s
    ensures limit == -1 && swap != 0 && swap != -1 && swap <= s.memory * 4096 ==>
              Remains(s, limit, swap) == if s.memsw == MAX_PAGES then Limits(MAX_PAGES, s.memsw) else s
    ensures limit < -1 && swap != -1 && swap <= s.memory * 4096 ==> Remains(s, limit, swap) == s
  {
    if limit > 0 {
      PagesBound(limit);
    }
  }

  /** From every state: unlimited swap, or a memory limit within the swap limit, is always reached. */
  lemma PromisedTargets(s: Limits, limit: I64, swap: I64)
    requires Valid(s)
    requires (limit == -1 && swap == 0) || (limit >= -1 && swap == -1) || 0 < limit <= swap
    ensures Feasible(s, limit, swap)
    ensures limit == -1 && swap == 0 ==> Target(s, limit, swap) == Limits(MAX_PAGES, MAX_PAGES)
    ensures swap == -1 ==> Target(s, limit, swap).memsw == MAX_PAGES
    ensures 0 < limit <= swap ==> Target(s, limit, swap) == Limits(limit / PAGE, swap / PAGE)
  {
    if 0 < limit <= swap {
      assert limit / PAGE <= swap / PAGE;
    }
  }

  /**
   * Why the order must adapt: for a target that the kernel can hold, each of the two fixed orders is
   * refused exactly if the target lies wholly on one side of the state, so neither order does for all
   * states; and no target but those is reached by any order.
   */
  lemma OrderMustAdapt(s: Limits, limit: I64, swap: I64)
    requires Valid(s) && limit >= -1 && swap >= -1
    ensures var target := Limits(Pages(limit), Pages(swap));
            var memoryFirst, memswFirst := Run(s, [Memory(limit), Memsw(swap)]), Run(s, [Memsw(swap), Memory(limit)]);
            && (memoryFirst == (true, target) <==> Valid(target) && Pages(limit) <= s.memsw)
            && (memswFirst == (true, target) <==> Valid(target) && s.memory <= Pages(swap))
            && (memoryFirst.0 || memswFirst.0 <==> Valid(target))
  {
    RunTwo(s, Memory(limit), Memsw(swap));
    RunTwo(s, Memsw(swap), Memory(limit));
  }

  lemma RunTwo(s: Limits, first: Write, second: Write)
    ensures Run(s, [first, second]) ==
            match Perform(s, first)
            case None => (false, s)
            case Some(m) => match Perform(m, second) case None => (false, m) case Some(next) => (true, next)
  {
    assert [first, second][1..] == [second] && [second][1..] == [];
    if Perform(s, first).Some? {
      var m := Perform(s, first).value;
      assert Run(m, [second]) == if Perform(m, second).None? then (false, m) else Run(Perform(m, second).value, []);
    }
  }
}
