/**
 * The memory budget of one device: how much of it may still be given to models.
 * Fractions are exact rationals, and a fraction of a byte count is rounded down.
 */
module Memory {
  import opened Base

  const MIB := 1024 * 1024
  const GIB := 1024 * MIB

  const HEADROOM_PERCENT := 8
  const HEADROOM_MIN_BYTES := 512 * MIB
  const OS_RESERVE_PERCENT := 15
  const OS_RESERVE_MIN_BYTES := 8 * GIB
  const INTERACTIVE_RESERVE_PERCENT := 30
  const METAL_DEFAULT_CEILING_PERCENT := 75

  const KIND_NAMES: set<string> := {"cpu", "cuda", "metal"}
  const PRESSURE_NAMES: set<string> := {"normal", "warn", "critical"}

  datatype MemoryInput = MemoryInput(
    kind: string, totalBytes: int, usedBytes: int, managedBytes: int,
    wiredLimitBytes: Option<int>, pressure: Option<string>, interactive: bool)

  datatype MemoryBudget = MemoryBudget(
    totalBytes: int, managedBytes: int, foreignBytes: int,
    headroomBytes: int, availableBytes: int, schedulable: bool)

  function Clamp(v: int, lo: int, hi: int): int { Min(Max(v, lo), hi) }

  function Percent(total: int, percent: int): int { total * percent / 100 }

  function OsReserve(input: MemoryInput): int {
    var percent := if input.interactive then INTERACTIVE_RESERVE_PERCENT else OS_RESERVE_PERCENT;
    Max(OS_RESERVE_MIN_BYTES, Percent(input.totalBytes, percent))
  }

  function Headroom(input: MemoryInput): int {
    if input.kind == "cuda" then Max(HEADROOM_MIN_BYTES, Percent(input.totalBytes, HEADROOM_PERCENT))
    else if input.kind == "metal" then 0
    else OsReserve(input)
  }

  function Ceiling(input: MemoryInput): int {
    if input.kind == "metal" then
      var wired := if input.wiredLimitBytes.Some? && input.wiredLimitBytes.value > 0
                   then input.wiredLimitBytes.value
                   else Percent(input.totalBytes, METAL_DEFAULT_CEILING_PERCENT);
      Min(wired, input.totalBytes - OsReserve(input))
    else input.totalBytes
  }

  predicate Schedulable(input: MemoryInput) {
    input.pressure.None? || input.pressure.value == "normal"
  }

  function ComputeBudget(input: MemoryInput): Result<MemoryBudget, string> {
    var foreign := Clamp(input.usedBytes - input.managedBytes, 0, input.totalBytes);
    if input.totalBytes <= 0 then Ok(MemoryBudget(0, 0, 0, 0, 0, false))
    else if input.kind !in KIND_NAMES then Err("unknown device kind: " + input.kind)
    else
      var raw := Ceiling(input) - foreign - input.managedBytes - Headroom(input);
      var available := if Schedulable(input) then Clamp(raw, 0, input.totalBytes) else 0;
      Ok(MemoryBudget(input.totalBytes, input.managedBytes, foreign, Headroom(input), available, Schedulable(input)))
  }

  /** What the budget makes available; zero where there is no budget. */
  function Available(input: MemoryInput): int {
    match ComputeBudget(input)
    case Ok(budget) => budget.availableBytes
    case Err(_) => 0
  }

  /** The only way the computation fails is a kind it does not know, on a device that has memory. */
  lemma BudgetFailsExactlyOnUnknownKind(input: MemoryInput)
    ensures ComputeBudget(input).Err? <==> input.totalBytes > 0 && input.kind !in {"cpu", "cuda", "metal"}
    ensures input.totalBytes <= 0 ==> ComputeBudget(input) == Ok(MemoryBudget(0, 0, 0, 0, 0, false))
  {
  }

  lemma CeilingWithinTotal(input: MemoryInput)
    requires input.totalBytes > 0
    ensures Ceiling(input) <= input.totalBytes && Headroom(input) >= 0
  {
  }

  /**
   * The foreign term, clamped on both sides, collapses: what is available is the
   * ceiling less the headroom less the larger of the two usage counts.
   */
  lemma AvailableClosedForm(input: MemoryInput)
    requires input.totalBytes > 0 && input.managedBytes >= 0
    requires input.kind in KIND_NAMES && Schedulable(input)
    ensures Available(input)
         == Clamp(Ceiling(input) - Headroom(input) - Max(input.usedBytes, input.managedBytes), 0, input.totalBytes)
  {
    CeilingWithinTotal(input);
  }

  /** The same, spelled out for each kind of device in bytes and percentages. */
  lemma AvailableByKind(input: MemoryInput)
    requires input.totalBytes > 0 && input.managedBytes >= 0 && Schedulable(input)
    ensures var total, held := input.totalBytes, Max(input.usedBytes, input.managedBytes);
            var reserve := Max(8589934592, total * (if input.interactive then 30 else 15) / 100);
            var limit := if input.wiredLimitBytes.Some? && input.wiredLimitBytes.value > 0
                         then input.wiredLimitBytes.value else total * 3 / 4;
            && (input.kind == "cuda" ==> Available(input) == Max(0, total - Max(536870912, total * 8 / 100) - held))
            && (input.kind == "cpu" ==> Available(input) == Max(0, total - reserve - held))
            && (input.kind == "metal" ==> Available(input) == Max(0, Min(limit, total - reserve) - held))
  {
    if input.kind in KIND_NAMES {
      AvailableClosedForm(input);
      CeilingWithinTotal(input);
      assert input.totalBytes * 75 / 100 == input.totalBytes * 3 / 4;
    }
  }

  /**
   * A whole budget, in bytes and percentages of what is known about the device:
   * 512 MiB or 8% kept free on a GPU, 8 GiB or 15% (30% on someone's daily driver)
   * for the operating system, and the wired limit or three quarters on a Mac.
   */
  ghost predicate BudgetIs(kind: string, total: int, used: int, managed: int, wired: Option<int>,
                           pressure: Option<string>, interactive: bool, b: MemoryBudget)
  {
    var headroom := Max(536870912, total * 8 / 100);
    var reserve := Max(8589934592, total * (if interactive then 30 else 15) / 100);
    var limit := if wired.Some? && wired.value > 0 then wired.value else total * 3 / 4;
    var usable := if kind == "cuda" then total - headroom
                  else if kind == "cpu" then total - reserve else Min(limit, total - reserve);
    && b.totalBytes == total && b.managedBytes == managed
    && b.foreignBytes == Max(0, Min(used - managed, total))
    && b.headroomBytes == (if kind == "cuda" then headroom else if kind == "cpu" then reserve else 0)
    && b.schedulable == (pressure.None? || pressure.value == "normal")
    && b.availableBytes == if b.schedulable then Max(0, usable - Max(used, managed)) else 0
  }

  /** Every budget of a known kind of device is that one, whether or not anything is available. */
  lemma BudgetByKind(input: MemoryInput)
    requires input.totalBytes > 0 && input.managedBytes >= 0 && input.kind in {"cpu", "cuda", "metal"}
    ensures ComputeBudget(input).Ok?
    ensures BudgetIs(input.kind, input.totalBytes, input.usedBytes, input.managedBytes, input.wiredLimitBytes,
                     input.pressure, input.interactive, ComputeBudget(input).value)
  {
    if Schedulable(input) {
      AvailableByKind(input);
    }
  }

  /** When anything is available, the four shares add up to a ceiling that fits in the device. */
  lemma BudgetConservation(input: MemoryInput)
    requires input.managedBytes >= 0
    requires ComputeBudget(input).Ok? && Available(input) > 0
    ensures var b := ComputeBudget(input).value;
            && b.managedBytes + b.foreignBytes + b.headroomBytes + b.availableBytes == Ceiling(input) <= b.totalBytes
            && b.foreignBytes >= 0 && b.headroomBytes >= 0 && b.schedulable
  {
    CeilingWithinTotal(input);
  }

  /** Every field is a nonnegative byte count and availability never exceeds the device. */
  lemma BudgetFieldsInRange(input: MemoryInput)
    requires input.managedBytes >= 0 && ComputeBudget(input).Ok?
    ensures var b := ComputeBudget(input).value;
            && 0 <= b.availableBytes <= b.totalBytes
            && 0 <= b.foreignBytes <= b.totalBytes
            && 0 <= b.headroomBytes && 0 <= b.managedBytes
            && (b.availableBytes > 0 ==> b.schedulable)
  {
  }

  // ----- Loading models one after another

  /** A model of `bytes` is loaded: it is ours, and the driver sees it too. */
  function Load(input: MemoryInput, bytes: int): MemoryInput {
    input.(usedBytes := input.usedBytes + bytes, managedBytes := input.managedBytes + bytes)
  }

  function LoadAll(input: MemoryInput, loads: seq<nat>): MemoryInput
    decreases loads
  {
    if loads == [] then input else LoadAll(Load(input, loads[0]), loads[1..])
  }

  /** Each load was at most what was available when it was admitted. */
  predicate Admitted(input: MemoryInput, loads: seq<nat>)
    decreases loads
  {
    loads == [] || (loads[0] <= Available(input) && Admitted(Load(input, loads[0]), loads[1..]))
  }

  function Sum(loads: seq<nat>): nat {
    if loads == [] then 0 else loads[0] + Sum(loads[1..])
  }

  lemma LoadOne(input: MemoryInput, bytes: nat)
    requires input.managedBytes >= 0 && ComputeBudget(input).Ok? && Available(input) > 0
    requires bytes <= Available(input)
    ensures ComputeBudget(Load(input, bytes)).Ok?
    ensures ComputeBudget(Load(input, bytes)).value.foreignBytes == ComputeBudget(input).value.foreignBytes
    ensures Available(Load(input, bytes)) == Available(input) - bytes
    ensures Ceiling(Load(input, bytes)) == Ceiling(input) && Headroom(Load(input, bytes)) == Headroom(input)
  {
    CeilingWithinTotal(input);
  }

  /** A device with nothing available admits only empty loads, which change nothing. */
  lemma {:induction false} NothingMoreFits(input: MemoryInput, loads: seq<nat>)
    requires Available(input) == 0 && Admitted(input, loads)
    ensures LoadAll(input, loads) == input && Sum(loads) == 0
  {
    if loads != [] {
      assert Load(input, loads[0]) == input;
      NothingMoreFits(input, loads[1..]);
    }
  }

  /**
   * However many loads are admitted in turn, foreign memory is untouched, every
   * byte admitted comes out of availability, and the ceiling is never crossed.
   */
  lemma {:induction false} SequentialLoadsAreSafe(input: MemoryInput, loads: seq<nat>)
    requires input.managedBytes >= 0 && ComputeBudget(input).Ok? && Available(input) > 0
    requires Admitted(input, loads)
    ensures var after := LoadAll(input, loads);
            && ComputeBudget(after).Ok?
            && var b := ComputeBudget(after).value;
            && b.foreignBytes == ComputeBudget(input).value.foreignBytes
            && b.managedBytes == input.managedBytes + Sum(loads)
            && b.availableBytes == Available(input) - Sum(loads)
            && b.managedBytes + b.foreignBytes + b.headroomBytes <= Ceiling(input)
    decreases loads
  {
    if loads == [] {
      BudgetConservation(input);
    } else {
      var next := Load(input, loads[0]);
      LoadOne(input, loads[0]);
      BudgetConservation(input);
      if Available(next) > 0 {
        SequentialLoadsAreSafe(next, loads[1..]);
      } else {
        NothingMoreFits(next, loads[1..]);
      }
    }
  }

  // ----- Monotonicity

  lemma ShareOfMore(total: int, extra: nat, percent: int)
    requires 0 <= percent <= 100
    ensures total * percent <= (total + extra) * percent <= total * percent + extra * 100
  {
    calc {
      (total + extra) * percent;
      total * percent + extra * percent;
    }
    calc {
      extra * 100 - extra * percent;
      extra * (100 - percent);
    }
  }

  lemma HundredthsGrow(p: int, q: int, extra: nat)
    requires p <= q <= p + extra * 100
    ensures p / 100 <= q / 100 <= p / 100 + extra
  {
  }

  /** One more byte of memory raises a reserve by at most one byte. */
  lemma PercentGrowsSlowly(total: int, more: int, percent: int)
    requires total <= more && 0 <= percent <= 100
    ensures Percent(total, percent) <= Percent(more, percent) <= Percent(total, percent) + (more - total)
  {
    ShareOfMore(total, more - total, percent);
    HundredthsGrow(total * percent, more * percent, more - total);
  }

  lemma UsableGrowsWithTotal(input: MemoryInput, total: int)
    requires 0 < input.totalBytes <= total
    ensures var bigger := input.(totalBytes := total);
            Ceiling(input) - Headroom(input) <= Ceiling(bigger) - Headroom(bigger)
  {
    PercentGrowsSlowly(input.totalBytes, total, HEADROOM_PERCENT);
    PercentGrowsSlowly(input.totalBytes, total, OS_RESERVE_PERCENT);
    PercentGrowsSlowly(input.totalBytes, total, INTERACTIVE_RESERVE_PERCENT);
    PercentGrowsSlowly(input.totalBytes, total, METAL_DEFAULT_CEILING_PERCENT);
  }

  /** More memory never means less of it available. */
  lemma AvailableGrowsWithTotal(input: MemoryInput, total: int)
    requires input.managedBytes >= 0 && input.totalBytes <= total
    ensures Available(input) <= Available(input.(totalBytes := total))
  {
    var bigger := input.(totalBytes := total);
    if input.totalBytes > 0 && input.kind in KIND_NAMES && Schedulable(input) {
      UsableGrowsWithTotal(input, total);
      AvailableClosedForm(input);
      AvailableClosedForm(bigger);
    } else if total > 0 && bigger.kind in KIND_NAMES {
      BudgetFieldsInRange(bigger);
    }
  }

  /** More in use, by anyone, never means more available. */
  lemma AvailableShrinksWithUse(input: MemoryInput, used: int, managed: int)
    requires input.usedBytes <= used && 0 <= input.managedBytes <= managed
    ensures Available(input.(usedBytes := used, managedBytes := managed)) <= Available(input)
  {
    var busier := input.(usedBytes := used, managedBytes := managed);
    if input.totalBytes > 0 && input.kind in KIND_NAMES && Schedulable(input) {
      AvailableClosedForm(input);
      AvailableClosedForm(busier);
      assert Ceiling(busier) == Ceiling(input) && Headroom(busier) == Headroom(input);
    }
  }

  /** Someone's daily driver never has more to give than the same machine left alone. */
  lemma InteractiveNeverGains(input: MemoryInput)
    requires input.managedBytes >= 0
    ensures Available(input.(interactive := true)) <= Available(input.(interactive := false))
  {
    var daily, spare := input.(interactive := true), input.(interactive := false);
    if input.totalBytes > 0 && input.kind in KIND_NAMES && Schedulable(input) {
      AvailableClosedForm(daily);
      AvailableClosedForm(spare);
      assert input.totalBytes * OS_RESERVE_PERCENT <= input.totalBytes * INTERACTIVE_RESERVE_PERCENT;
      assert OsReserve(spare) <= OsReserve(daily);
    }
  }
}
