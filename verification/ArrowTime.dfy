/** Date and timestamp arithmetic of the Arrow conversion
    (crates/ox-api/src/arrow_conversion.rs). Dafny's `/` and `%` by a positive divisor are
    Rust's `div_euclid` and `rem_euclid`; Rust's own `/` truncates and is spelt out. */
module ArrowTime {

  datatype Unit = Second | Millisecond | Microsecond | Nanosecond

  const NANOS := 1_000_000_000
  const DAY_SECONDS := 86_400
  const DAY_MILLIS := 86_400_000
  const U32_MAX := 0xFFFF_FFFF

  function PerSecond(unit: Unit): (n: int)
    ensures n > 0
  {
    match unit
    case Second => 1
    case Millisecond => 1_000
    case Microsecond => 1_000_000
    case Nanosecond => NANOS
  }

  function NanosPer(unit: Unit): (n: int)
    ensures n > 0
  {
    match unit
    case Second => NANOS
    case Millisecond => 1_000_000
    case Microsecond => 1_000
    case Nanosecond => 1
  }

  // Seconds since the epoch and nanoseconds within the second.
  datatype Instant = Instant(secs: int, nanos: int)

  // The split each arm of the conversion computes.
  function Split(unit: Unit, ticks: int): Instant {
    match unit
    case Second => Instant(ticks, 0)
    case Millisecond => Instant(ticks / 1_000, (ticks % 1_000) * 1_000_000)
    case Microsecond => Instant(ticks / 1_000_000, (ticks % 1_000_000) * 1_000)
    case Nanosecond => Instant(ticks / 1_000_000_000, ticks % 1_000_000_000)
  }

  // Nanoseconds since the epoch.
  function Position(t: Instant): int {
    t.secs * NANOS + t.nanos
  }

  // Rust's integer division.
  function TruncDiv(a: int, b: int): int
    requires b > 0
  {
    if a >= 0 then a / b else -((-a) / b)
  }

  function Date64Day(millis: int): int {
    TruncDiv(millis, DAY_MILLIS)
  }

  // What the platform decides: the days since the epoch that the calendar library can represent, and
  // the bits of two doubles, a widened single (by its bits) and an integer over a power of ten.
  datatype Platform = Platform(minDay: int, maxDay: int, widened: int -> int, scaled: (int, int) -> int)

  predicate ValidDay(env: Platform, day: int) {
    env.minDay <= day <= env.maxDay
  }

  predicate ValidSecond(env: Platform, secs: int) {
    ValidDay(env, secs / DAY_SECONDS)
  }

  /** The split is exact, negatives included: it loses nothing, the remainder is a proper
      fraction of a second, and neither the remainder nor its product leaves u32. */
  lemma SplitIsExact(unit: Unit, ticks: int)
    ensures Position(Split(unit, ticks)) == ticks * NanosPer(unit)
    ensures 0 <= Split(unit, ticks).nanos < NANOS
    ensures 0 <= ticks % PerSecond(unit) <= U32_MAX && (ticks % PerSecond(unit)) * NanosPer(unit) <= U32_MAX
  {
  }

  predicate Before(a: Instant, b: Instant) {
    a.secs < b.secs || (a.secs == b.secs && a.nanos < b.nanos)
  }

  lemma PositionOrders(a: Instant, b: Instant)
    requires 0 <= a.nanos < NANOS && 0 <= b.nanos < NANOS
    ensures Before(a, b) <==> Position(a) < Position(b)
    ensures a == b <==> Position(a) == Position(b)
  {
  }

  /** Hence the split preserves and reflects order and equality, also across units. */
  lemma SplitOrders(unit: Unit, ticks: int, unit': Unit, ticks': int)
    ensures Before(Split(unit, ticks), Split(unit', ticks')) <==> ticks * NanosPer(unit) < ticks' * NanosPer(unit')
    ensures Split(unit, ticks) == Split(unit', ticks') <==> ticks * NanosPer(unit) == ticks' * NanosPer(unit')
    ensures unit == unit' ==> (Split(unit, ticks) == Split(unit', ticks') <==> ticks == ticks')
  {
    SplitIsExact(unit, ticks);
    SplitIsExact(unit', ticks');
    PositionOrders(Split(unit, ticks), Split(unit', ticks'));
  }

  /** Truncation finds the day a Date64 lies in exactly when it is nonnegative or a whole
      number of days; otherwise it lands one day late. */
  lemma Date64DayIsFloor(millis: int)
    ensures Date64Day(millis) == millis / DAY_MILLIS <==> millis >= 0 || millis % DAY_MILLIS == 0
    ensures Date64Day(millis) == millis / DAY_MILLIS + if millis >= 0 || millis % DAY_MILLIS == 0 then 0 else 1
  {
    if millis < 0 {
      var q, r := (-millis) / DAY_MILLIS, (-millis) % DAY_MILLIS;
      assert millis == -q * DAY_MILLIS - r;
    }
  }
}
