/** The per-user fixed-window rate limiter (crates/ox-api/src/middleware.rs). */
module FixedWindow {
  import opened Prelude

  type User = string

  datatype Config = Config(maxRequests: nat, window: nat)

  datatype WindowEntry = WindowEntry(start: Time, count: nat)

  type Counters = map<User, WindowEntry>

  // `Ok` carries the requests remaining, `Err` the seconds to wait.
  type Answer = Result<nat, nat>

  function Minus(a: nat, b: nat): nat { if a >= b then a - b else 0 }

  function CheckEntry(cfg: Config, e: WindowEntry, now: Time): (WindowEntry, Answer) {
    var elapsed := Elapsed(now, e.start);
    if elapsed >= cfg.window then (WindowEntry(now, 1), Ok(Minus(cfg.maxRequests, 1)))
    else if e.count >= cfg.maxRequests then (e, Err(Max(Minus(cfg.window, elapsed) / 1000, 1)))
    else (WindowEntry(e.start, e.count + 1), Ok(Minus(cfg.maxRequests, e.count + 1)))
  }

  function CheckUser(cfg: Config, m: Counters, user: User, now: Time): (Counters, Answer) {
    var (e, answer) := CheckEntry(cfg, if user in m then m[user] else WindowEntry(now, 0), now);
    (m[user := e], answer)
  }

  predicate Live(cfg: Config, e: WindowEntry, now: Time) {
    Elapsed(now, e.start) < cfg.window
  }

  function Sweep(cfg: Config, m: Counters, now: Time): Counters {
    map u | u in m && Live(cfg, m[u], now) :: m[u]
  }

  class RateLimiter {
    const cfg: Config
    var counters: Counters

    constructor (cfg: Config)
      ensures this.cfg == cfg && counters == map[]
    {
      this.cfg := cfg;
      counters := map[];
    }

    method Check(user: User, now: Time) returns (answer: Answer)
      modifies this
      ensures (counters, answer) == CheckUser(cfg, old(counters), user, now)
    {
      if user !in counters {
        counters := counters[user := WindowEntry(now, 0)];
      }
      var elapsed := Elapsed(now, counters[user].start);
      if elapsed >= cfg.window {
        counters := counters[user := WindowEntry(now, 1)];
        assert counters == old(counters)[user := counters[user]];
        return Ok(Minus(cfg.maxRequests, 1));
      }
      if counters[user].count >= cfg.maxRequests {
        assert counters == old(counters)[user := counters[user]];
        return Err(Max(Minus(cfg.window, elapsed) / 1000, 1));
      }
      var e := counters[user];
      counters := counters[user := WindowEntry(e.start, e.count + 1)];
      assert counters == old(counters)[user := counters[user]];
      return Ok(Minus(cfg.maxRequests, counters[user].count));
    }

    method Cleanup(now: Time)
      modifies this
      ensures counters == Sweep(cfg, old(counters), now)
    {
      var rest := counters.Keys;
      while rest != {}
        invariant rest <= old(counters).Keys && rest <= counters.Keys
        invariant counters == map u | u in old(counters) && (u in rest || Live(cfg, old(counters)[u], now)) ::
          old(counters)[u]
      {
        var u :| u in rest;
        rest := rest - {u};
        if Elapsed(now, counters[u].start) >= cfg.window {
          counters := counters - {u};
        }
      }
    }
  }

  // ------------------------------------------------------------------
  // What the answers promise
  // ------------------------------------------------------------------

  // A user's entry after `k` more requests at one instant.
  function Repeated(cfg: Config, e: WindowEntry, t: Time, k: nat): WindowEntry {
    if k == 0 then e else CheckEntry(cfg, Repeated(cfg, e, t, k - 1), t).0
  }

  /** "Remaining" is exact: after an answer of n, exactly n more requests are admitted before the
      window ends, and the next one is refused. */
  lemma {:induction false} RemainingIsExact(cfg: Config, e: WindowEntry, now: Time, t: Time, k: nat)
    requires var (e', answer) := CheckEntry(cfg, e, now);
      answer.Ok? && k <= answer.value && e'.start <= t < e'.start + cfg.window
    ensures var (e', answer) := CheckEntry(cfg, e, now);
      Repeated(cfg, e', t, k) == WindowEntry(e'.start, e'.count + k) &&
      (CheckEntry(cfg, Repeated(cfg, e', t, k), t).1.Ok? <==> k < answer.value)
  {
    if k > 0 {
      RemainingIsExact(cfg, e, now, t, k - 1);
    }
  }

  /** "Retry after" is not: the seconds are rounded down, so a user who waits exactly as told is
      admitted iff what was left of the window was below one second or a whole number of seconds. */
  lemma RetryAfterSufficesIff(cfg: Config, e: WindowEntry, now: Time)
    requires e.start <= now && CheckEntry(cfg, e, now).1.Err?
    ensures var (e', answer) := CheckEntry(cfg, e, now);
      var left := e.start + cfg.window - now;
      CheckEntry(cfg, e', now + 1000 * answer.error).1.Ok? <==> left < 1000 || left % 1000 == 0
  {
    var left := e.start + cfg.window - now;
    assert left == 1000 * (left / 1000) + left % 1000;
  }

  // ------------------------------------------------------------------
  // Runs: serial operations at nondecreasing times
  // ------------------------------------------------------------------

  datatype Op = Check(user: User, now: Time) | Cleanup(now: Time)

  datatype Answered = Answered(user: User, now: Time, answer: Answer)

  function Init(ops: seq<Op>): seq<Op> requires ops != [] { ops[..|ops| - 1] }

  function Last(ops: seq<Op>): Op requires ops != [] { ops[|ops| - 1] }

  // Each operation is no earlier than the one before it.
  predicate Run(ops: seq<Op>) {
    ops == [] || (Run(Init(ops)) && LastTime(Init(ops), Last(ops).now) <= Last(ops).now)
  }

  // The time of the last operation, or `none` when there is none.
  function LastTime(ops: seq<Op>, none: Time): Time { if ops == [] then none else Last(ops).now }

  function State(cfg: Config, ops: seq<Op>): Counters {
    if ops == [] then map[]
    else
      var m := State(cfg, Init(ops));
      match Last(ops)
      case Check(user, now) => CheckUser(cfg, m, user, now).0
      case Cleanup(now) => Sweep(cfg, m, now)
  }

  // Every answer given, in order.
  function Log(cfg: Config, ops: seq<Op>): seq<Answered> {
    if ops == [] then []
    else
      var log := Log(cfg, Init(ops));
      match Last(ops)
      case Check(user, now) => log + [Answered(user, now, CheckUser(cfg, State(cfg, Init(ops)), user, now).1)]
      case Cleanup(_) => log
  }

  // The run without its cleanups.
  function Strip(ops: seq<Op>): seq<Op> {
    if ops == [] then []
    else if Last(ops).Check? then Strip(Init(ops)) + [Last(ops)]
    else Strip(Init(ops))
  }

  // The requests of `user` admitted in the closed interval [lo, hi].
  function Admitted(log: seq<Answered>, user: User, lo: Time, hi: Time): nat {
    if log == [] then 0
    else
      var a := log[|log| - 1];
      Admitted(log[..|log| - 1], user, lo, hi) + if a.user == user && a.answer.Ok? && lo <= a.now <= hi then 1 else 0
  }

  // n * x, by repeated addition.
  function Times(n: nat, x: nat): nat { if n == 0 then 0 else Times(n - 1, x) + x }

  lemma {:induction false} TimesIsProduct(n: nat, x: nat)
    ensures Times(n, x) == n * x
  {
    if n > 0 {
      TimesIsProduct(n - 1, x);
      assert (n - 1) * x == n * x - x;
    }
  }

  // ------------------------------------------------------------------
  // Cleanup is invisible
  // ------------------------------------------------------------------

  // `swept` is `m` except that some expired entries are gone.
  ghost predicate SweptFrom(cfg: Config, swept: Counters, m: Counters, now: Time) {
    && (forall u :: u in swept ==> u in m && m[u] == swept[u])
    && (forall u :: u in m && u !in swept ==> Elapsed(now, m[u].start) >= cfg.window)
  }

  ghost predicate Transparent(cfg: Config) { cfg.maxRequests >= 1 || cfg.window == 0 }

  lemma SameAnswer(cfg: Config, swept: Counters, m: Counters, user: User, then': Time, now: Time)
    requires Transparent(cfg) && then' <= now && SweptFrom(cfg, swept, m, then')
    ensures CheckUser(cfg, swept, user, now).1 == CheckUser(cfg, m, user, now).1
    ensures SweptFrom(cfg, CheckUser(cfg, swept, user, now).0, CheckUser(cfg, m, user, now).0, now)
  {
  }

  lemma CheckSnoc(cfg: Config, ops: seq<Op>, user: User, now: Time)
    ensures var (m, answer) := CheckUser(cfg, State(cfg, ops), user, now);
      State(cfg, ops + [Check(user, now)]) == m &&
      Log(cfg, ops + [Check(user, now)]) == Log(cfg, ops) + [Answered(user, now, answer)]
  {
    assert Init(ops + [Check(user, now)]) == ops;
  }

  // A check answers alike with and without the cleanups before it.
  lemma CheckAlike(cfg: Config, ops: seq<Op>, user: User, now: Time)
    requires Transparent(cfg) && SweptFrom(cfg, State(cfg, ops), State(cfg, Strip(ops)), now) &&
      Log(cfg, ops) == Log(cfg, Strip(ops))
    ensures var all, bare := ops + [Check(user, now)], Strip(ops) + [Check(user, now)];
      SweptFrom(cfg, State(cfg, all), State(cfg, bare), now) && Log(cfg, all) == Log(cfg, bare)
  {
    CheckSnoc(cfg, ops, user, now);
    CheckSnoc(cfg, Strip(ops), user, now);
    SameAnswer(cfg, State(cfg, ops), State(cfg, Strip(ops)), user, now, now);
  }

  lemma SweepAgain(cfg: Config, swept: Counters, m: Counters, now: Time)
    requires SweptFrom(cfg, swept, m, now)
    ensures SweptFrom(cfg, Sweep(cfg, swept, now), m, now)
  {
  }

  lemma Later(cfg: Config, swept: Counters, m: Counters, then': Time, now: Time)
    requires SweptFrom(cfg, swept, m, then') && then' <= now
    ensures SweptFrom(cfg, swept, m, now)
  {
  }

  lemma {:induction false} SweptAlways(cfg: Config, ops: seq<Op>, now: Time)
    requires Transparent(cfg) && Run(ops) && LastTime(ops, now) <= now
    ensures SweptFrom(cfg, State(cfg, ops), State(cfg, Strip(ops)), now)
    ensures Log(cfg, ops) == Log(cfg, Strip(ops))
    decreases |ops|
  {
    if ops != [] {
      var before, op := Init(ops), Last(ops);
      SweptAlways(cfg, before, op.now);
      assert ops == before + [op];
      match op {
        case Check(user, at) => CheckAlike(cfg, before, user, at);
        case Cleanup(at) => SweepAgain(cfg, State(cfg, before), State(cfg, Strip(before)), at);
      }
      Later(cfg, State(cfg, ops), State(cfg, Strip(ops)), op.now, now);
    }
  }

  ghost predicate CleanupInvisible(cfg: Config, ops: seq<Op>) {
    Run(ops) ==> Log(cfg, ops) == Log(cfg, Strip(ops))
  }

  // With no budget but a real window, a user's first request is refused and the first one after
  // the window is let through, unless a cleanup in between forgot the user.
  function Exposing(cfg: Config, user: User): seq<Op> {
    [Check(user, 0), Cleanup(cfg.window), Check(user, cfg.window)]
  }

  lemma CleanupExposed(cfg: Config, user: User)
    requires !Transparent(cfg)
    ensures !CleanupInvisible(cfg, Exposing(cfg, user))
  {
    var ops := Exposing(cfg, user);
    var one, two := [ops[0]], [ops[0], ops[1]];
    var bare := [ops[0], ops[2]];
    assert Init(ops) == two && Init(two) == one && Init(one) == [] && Init(bare) == one;
    assert Strip([]) == [] && Strip(one) == [] + [ops[0]] == one && Strip(two) == one;
    assert Strip(ops) == one + [ops[2]] == bare;
    var e := WindowEntry(0, 0);
    assert State(cfg, []) == map[];
    assert State(cfg, one) == map[user := e];
    assert State(cfg, two) == map[];
    assert |Log(cfg, one)| == 1;
    assert Log(cfg, ops) == Log(cfg, one) + [Answered(user, cfg.window, CheckUser(cfg, map[], user, cfg.window).1)];
    assert Log(cfg, bare) == Log(cfg, one) +
      [Answered(user, cfg.window, CheckUser(cfg, map[user := e], user, cfg.window).1)];
    assert Log(cfg, ops)[1] != Log(cfg, bare)[1];
    assert Run([]) && Run(one) && Run(two) && Run(ops);
  }

  /** Cleanups, wherever they fall in a run, change no answer, exactly when the configuration has a
      budget or has no window. */
  lemma TransparentIff(cfg: Config)
    ensures (forall ops :: CleanupInvisible(cfg, ops)) <==> cfg.maxRequests >= 1 || cfg.window == 0
  {
    if Transparent(cfg) {
      forall ops ensures CleanupInvisible(cfg, ops) {
        if Run(ops) {
          SweptAlways(cfg, ops, LastTime(ops, 0));
        }
      }
    } else {
      CleanupExposed(cfg, "u");
    }
  }

  // ------------------------------------------------------------------
  // How many requests an interval can admit
  // ------------------------------------------------------------------

  predicate NoCleanup(ops: seq<Op>) {
    ops == [] || (NoCleanup(Init(ops)) && Last(ops).Check?)
  }

  // The most one window admits: a reset admits one request even when the budget is zero.
  function PerWindow(cfg: Config): nat { Max(cfg.maxRequests, 1) }

  lemma {:induction false} UnknownUser(cfg: Config, ops: seq<Op>, user: User, lo: Time, hi: Time)
    requires NoCleanup(ops) && user !in State(cfg, ops)
    ensures Admitted(Log(cfg, ops), user, lo, hi) == 0
  {
    if ops != [] {
      UnknownUser(cfg, Init(ops), user, lo, hi);
    }
  }

  // A user's window opened in the past, and nothing was admitted at or after its end.
  lemma {:induction false} WindowCovers(cfg: Config, ops: seq<Op>, user: User, lo: Time, hi: Time)
    requires NoCleanup(ops) && Run(ops) && cfg.window > 0 && user in State(cfg, ops)
    ensures var e := State(cfg, ops)[user];
      e.start <= Last(ops).now && e.count <= PerWindow(cfg) &&
      (lo >= e.start + cfg.window ==> Admitted(Log(cfg, ops), user, lo, hi) == 0)
  {
    if user in State(cfg, Init(ops)) {
      WindowCovers(cfg, Init(ops), user, lo, hi);
    } else {
      UnknownUser(cfg, Init(ops), user, lo, hi);
    }
  }

  lemma {:induction false} AdmittedShrinks(log: seq<Answered>, user: User, lo: Time, lo': Time, hi: Time)
    requires lo <= lo'
    ensures Admitted(log, user, lo', hi) <= Admitted(log, user, lo, hi)
  {
    if log != [] {
      AdmittedShrinks(log[..|log| - 1], user, lo, lo', hi);
    }
  }

  // What the last check of a run does to one user's entry and admissions.
  lemma LastCheck(cfg: Config, ops: seq<Op>, user: User, lo: Time, hi: Time)
    requires ops != [] && Last(ops).Check?
    ensures var op, m, m' := Last(ops), State(cfg, Init(ops)), State(cfg, ops);
      var earlier, now := Admitted(Log(cfg, Init(ops)), user, lo, hi), Admitted(Log(cfg, ops), user, lo, hi);
      if op.user != user then now == earlier && (user in m <==> user in m') && (user in m ==> m'[user] == m[user])
      else
        var (e, answer) := CheckEntry(cfg, if user in m then m[user] else WindowEntry(op.now, 0), op.now);
        user in m' && m'[user] == e && now == earlier + if answer.Ok? && lo <= op.now <= hi then 1 else 0
  {
    var log := Log(cfg, ops);
    assert log[..|log| - 1] == Log(cfg, Init(ops));
  }

  // Since any time at most n windows before the current one opened, at most n full windows' worth
  // of requests were admitted on top of the current count.
  lemma {:induction false} AdmittedSince(cfg: Config, ops: seq<Op>, user: User, lo: Time, hi: Time, n: nat)
    requires NoCleanup(ops) && Run(ops) && cfg.window > 0 && user in State(cfg, ops)
    requires lo <= State(cfg, ops)[user].start <= lo + Times(n, cfg.window)
    ensures Admitted(Log(cfg, ops), user, lo, hi) <= Times(n, PerWindow(cfg)) + State(cfg, ops)[user].count
    decreases |ops|
  {
    var before, op := Init(ops), Last(ops);
    LastCheck(cfg, ops, user, lo, hi);
    if user !in State(cfg, before) {
      UnknownUser(cfg, before, user, lo, hi);
    } else {
      var e := State(cfg, before)[user];
      if op.user != user || Elapsed(op.now, e.start) < cfg.window {
        AdmittedSince(cfg, before, user, lo, hi, n);
      } else {
        WindowCovers(cfg, before, user, lo, hi);
        if lo <= e.start {
          AdmittedSince(cfg, before, user, lo, hi, n - 1);
        } else if lo < e.start + cfg.window {
          AdmittedSince(cfg, before, user, e.start, hi, 0);
          AdmittedShrinks(Log(cfg, before), user, e.start, lo, hi);
        }
      }
    }
  }

  lemma {:induction false} BoundWithoutCleanup(cfg: Config, ops: seq<Op>, user: User, lo: Time, k: nat)
    requires NoCleanup(ops) && Run(ops) && cfg.window > 0
    ensures Admitted(Log(cfg, ops), user, lo, lo + Times(k, cfg.window)) <= Times(k + 1, PerWindow(cfg))
    decreases |ops|
  {
    var hi := lo + Times(k, cfg.window);
    if user !in State(cfg, ops) {
      UnknownUser(cfg, ops, user, lo, hi);
    } else {
      var start := State(cfg, ops)[user].start;
      WindowCovers(cfg, ops, user, lo, hi);
      LastCheck(cfg, ops, user, lo, hi);
      if Last(ops).now > hi || Last(ops).user != user {
        BoundWithoutCleanup(cfg, Init(ops), user, lo, k);
      } else if lo <= start {
        AdmittedSince(cfg, ops, user, lo, hi, k);
      } else {
        AdmittedSince(cfg, ops, user, start, hi, 0);
        AdmittedShrinks(Log(cfg, ops), user, start, lo, hi);
      }
    }
  }

  lemma {:induction false} StripRuns(ops: seq<Op>, now: Time)
    requires Run(ops) && LastTime(ops, now) <= now
    ensures Run(Strip(ops)) && NoCleanup(Strip(ops)) && LastTime(Strip(ops), now) <= now
    decreases |ops|
  {
    if ops != [] {
      StripRuns(Init(ops), Last(ops).now);
      if Last(ops).Check? {
        assert Init(Strip(ops)) == Strip(Init(ops));
      }
    }
  }

  /** A closed interval k windows long admits at most k + 1 budgets' worth of one user's requests,
      whatever other users and cleanups do. */
  lemma AdmissionBound(cfg: Config, ops: seq<Op>, user: User, lo: Time, k: nat)
    requires Run(ops) && cfg.maxRequests >= 1 && cfg.window > 0
    ensures Admitted(Log(cfg, ops), user, lo, lo + k * cfg.window) <= (k + 1) * cfg.maxRequests
  {
    var now := LastTime(ops, 0);
    SweptAlways(cfg, ops, now);
    StripRuns(ops, now);
    BoundWithoutCleanup(cfg, Strip(ops), user, lo, k);
    TimesIsProduct(k, cfg.window);
    TimesIsProduct(k + 1, cfg.maxRequests);
  }

  // ------------------------------------------------------------------
  // The bound is met
  // ------------------------------------------------------------------

  // `n` requests at one instant after a run.
  function Burst(ops: seq<Op>, user: User, now: Time, n: nat): seq<Op> {
    if n == 0 then ops else Burst(ops, user, now, n - 1) + [Check(user, now)]
  }

  // A full budget at each of the k + 1 ends of k consecutive windows.
  function Peak(cfg: Config, user: User, k: nat): seq<Op> {
    Burst(if k == 0 then [] else Peak(cfg, user, k - 1), user, Times(k, cfg.window), cfg.maxRequests)
  }

  lemma {:induction false} BurstRuns(ops: seq<Op>, user: User, now: Time, n: nat)
    requires Run(ops) && NoCleanup(ops) && LastTime(ops, now) <= now
    ensures var all := Burst(ops, user, now, n); Run(all) && NoCleanup(all) && LastTime(all, now) <= now
  {
    if n > 0 {
      BurstRuns(ops, user, now, n - 1);
      assert Init(Burst(ops, user, now, n)) == Burst(ops, user, now, n - 1);
    }
  }

  lemma {:induction false} BurstAdmitted(cfg: Config, ops: seq<Op>, user: User, now: Time, n: nat, lo: Time)
    requires n <= cfg.maxRequests && cfg.window > 0 && lo <= now
    requires user in State(cfg, ops) ==> now >= State(cfg, ops)[user].start + cfg.window
    ensures var all := Burst(ops, user, now, n);
      (n >= 1 ==> user in State(cfg, all) && State(cfg, all)[user] == WindowEntry(now, n)) &&
      Admitted(Log(cfg, all), user, lo, now) == Admitted(Log(cfg, ops), user, lo, now) + n
  {
    if n > 0 {
      var prev := Burst(ops, user, now, n - 1);
      BurstAdmitted(cfg, ops, user, now, n - 1, lo);
      BurstStep(cfg, prev, user, now, n - 1, lo);
    }
  }

  lemma BurstStep(cfg: Config, ops: seq<Op>, user: User, now: Time, n: nat, lo: Time)
    requires n < cfg.maxRequests && cfg.window > 0 && lo <= now
    requires n == 0 ==> user in State(cfg, ops) ==> now >= State(cfg, ops)[user].start + cfg.window
    requires n > 0 ==> user in State(cfg, ops) && State(cfg, ops)[user] == WindowEntry(now, n)
    ensures var all := ops + [Check(user, now)];
      user in State(cfg, all) && State(cfg, all)[user] == WindowEntry(now, n + 1) &&
      Admitted(Log(cfg, all), user, lo, now) == Admitted(Log(cfg, ops), user, lo, now) + 1
  {
    var all := ops + [Check(user, now)];
    assert Init(all) == ops;
    LastCheck(cfg, all, user, lo, now);
  }

  lemma {:induction false} AdmittedEarlier(cfg: Config, ops: seq<Op>, user: User, lo: Time, hi: Time, hi': Time)
    requires hi <= hi' && Run(ops) && NoCleanup(ops) && LastTime(ops, hi) <= hi
    ensures Admitted(Log(cfg, ops), user, lo, hi') == Admitted(Log(cfg, ops), user, lo, hi)
  {
    if ops != [] {
      LastCheck(cfg, ops, user, lo, hi);
      LastCheck(cfg, ops, user, lo, hi');
      AdmittedEarlier(cfg, Init(ops), user, lo, hi, hi');
    }
  }

  lemma {:induction false} PeakAdmits(cfg: Config, user: User, k: nat)
    requires cfg.maxRequests >= 1 && cfg.window > 0
    ensures var peak := Peak(cfg, user, k);
      Run(peak) && NoCleanup(peak) && LastTime(peak, 0) <= Times(k, cfg.window) &&
      user in State(cfg, peak) && State(cfg, peak)[user].start == Times(k, cfg.window) &&
      Admitted(Log(cfg, peak), user, 0, Times(k, cfg.window)) == Times(k + 1, cfg.maxRequests)
  {
    var now := Times(k, cfg.window);
    if k == 0 {
      BurstRuns([], user, now, cfg.maxRequests);
      BurstAdmitted(cfg, [], user, now, cfg.maxRequests, 0);
    } else {
      PeakAdmits(cfg, user, k - 1);
      var before := Peak(cfg, user, k - 1);
      AdmittedEarlier(cfg, before, user, 0, now - cfg.window, now);
      BurstRuns(before, user, now, cfg.maxRequests);
      BurstAdmitted(cfg, before, user, now, cfg.maxRequests, 0);
    }
  }

  /** For every k there is a run that admits exactly k + 1 budgets' worth in k windows: twice the
      budget in one window. */
  lemma BoundAttained(cfg: Config, user: User, k: nat)
    requires cfg.maxRequests >= 1 && cfg.window > 0
    ensures Run(Peak(cfg, user, k))
    ensures Admitted(Log(cfg, Peak(cfg, user, k)), user, 0, k * cfg.window) == (k + 1) * cfg.maxRequests
  {
    PeakAdmits(cfg, user, k);
    TimesIsProduct(k, cfg.window);
    TimesIsProduct(k + 1, cfg.maxRequests);
  }

  // ------------------------------------------------------------------
  // When the bound holds
  // ------------------------------------------------------------------

  ghost predicate MeetsBound(cfg: Config, ops: seq<Op>, user: User, lo: Time, k: nat) {
    Admitted(Log(cfg, ops), user, lo, lo + k * cfg.window) <= (k + 1) * cfg.maxRequests
  }

  // Without a budget the first request is refused, and the first one after the window is let through.
  lemma ZeroBudgetAdmits(cfg: Config, user: User)
    requires cfg.maxRequests == 0 && cfg.window > 0
    ensures var ops := [Check(user, 0), Check(user, cfg.window)];
      Run(ops) && !MeetsBound(cfg, ops, user, cfg.window, 0)
  {
    var one, two := [Check(user, 0)], [Check(user, 0), Check(user, cfg.window)];
    assert Init(two) == one && Init(one) == [];
    assert Run([]) && Run(one);
    assert State(cfg, one) == map[user := WindowEntry(0, 0)];
    LastCheck(cfg, two, user, cfg.window, cfg.window);
  }

  // Without a window every request opens a new one.
  lemma ZeroWindowAdmits(cfg: Config, ops: seq<Op>, user: User)
    requires cfg.window == 0
    ensures Admitted(Log(cfg, ops + [Check(user, 0)]), user, 0, 0) == Admitted(Log(cfg, ops), user, 0, 0) + 1
  {
    assert Init(ops + [Check(user, 0)]) == ops;
    LastCheck(cfg, ops + [Check(user, 0)], user, 0, 0);
  }

  lemma {:induction false} ZeroWindowAdmitsAll(cfg: Config, user: User, n: nat)
    requires cfg.window == 0
    ensures Admitted(Log(cfg, Burst([], user, 0, n)), user, 0, 0) == n
  {
    if n > 0 {
      ZeroWindowAdmitsAll(cfg, user, n - 1);
      ZeroWindowAdmits(cfg, Burst([], user, 0, n - 1), user);
    }
  }

  /** Every interval of k windows, on every run, admits at most k + 1 budgets of a user's requests
      iff there is a budget and there is a window. */
  lemma BoundHoldsIff(cfg: Config)
    ensures (forall ops, user, lo, k: nat :: Run(ops) ==> MeetsBound(cfg, ops, user, lo, k)) <==>
      cfg.maxRequests >= 1 && cfg.window > 0
  {
    if cfg.maxRequests >= 1 && cfg.window > 0 {
      forall ops, user, lo, k: nat | Run(ops) ensures MeetsBound(cfg, ops, user, lo, k) {
        AdmissionBound(cfg, ops, user, lo, k);
      }
    } else if cfg.window == 0 {
      var n := cfg.maxRequests + 1;
      ZeroWindowAdmitsAll(cfg, "u", n);
      BurstRuns([], "u", 0, n);
      assert !MeetsBound(cfg, Burst([], "u", 0, n), "u", 0, 0);
    } else {
      ZeroBudgetAdmits(cfg, "u");
    }
  }
}
