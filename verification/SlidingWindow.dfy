/** The per-session call limiter of the MCP server: a sliding window over the times of past
    calls (crates/ox-api/src/mcp.rs). */
module SlidingWindow {
  import opened Prelude

  // `origin` is the earliest reading the monotonic clock can represent.
  datatype Limits = Limits(window: nat, maxCalls: nat, origin: Time)

  predicate Representable(lim: Limits, now: Time) {
    now - lim.window >= lim.origin
  }

  function Cutoff(lim: Limits, now: Time): Time {
    if Representable(lim, now) then now - lim.window else now
  }

  function DropBefore(q: seq<Time>, cutoff: Time): seq<Time> {
    if q != [] && q[0] < cutoff then DropBefore(q[1..], cutoff) else q
  }

  // The newest `cap` entries.
  function Newest(q: seq<Time>, cap: nat): seq<Time> {
    if |q| > cap then q[|q| - cap..] else q
  }

  function Check(lim: Limits, q: seq<Time>, now: Time): (seq<Time>, bool) {
    var kept := DropBefore(q, Cutoff(lim, now));
    if |kept| >= lim.maxCalls then (kept, false) else (Newest(kept + [now], 2 * lim.maxCalls), true)
  }

  class SessionLimiter {
    const lim: Limits
    var queue: seq<Time>

    constructor (lim: Limits)
      ensures this.lim == lim && queue == []
    {
      this.lim := lim;
      queue := [];
    }

    method CheckCall(now: Time) returns (ok: bool)
      modifies this
      ensures (queue, ok) == Check(lim, old(queue), now)
    {
      var cutoff := Cutoff(lim, now);
      while queue != [] && queue[0] < cutoff
        invariant DropBefore(queue, cutoff) == DropBefore(old(queue), cutoff)
        decreases |queue|
      {
        queue := queue[1..];
      }
      if |queue| >= lim.maxCalls {
        return false;
      }
      queue := queue + [now];
      TrimTo(2 * lim.maxCalls);
      return true;
    }

    // The defensive memory cap.
    method TrimTo(cap: nat)
      modifies this
      ensures queue == Newest(old(queue), cap)
    {
      while |queue| > cap
        invariant |queue| <= |old(queue)| && queue == old(queue)[|old(queue)| - |queue|..]
        invariant if |old(queue)| > cap then |queue| >= cap else queue == old(queue)
        decreases |queue|
      {
        queue := queue[1..];
      }
    }
  }

  // ------------------------------------------------------------------
  // Runs
  // ------------------------------------------------------------------

  ghost predicate Sorted(s: seq<Time>) {
    forall i, j :: 0 <= i < j < |s| ==> s[i] <= s[j]
  }

  // Calls at nondecreasing times, each of whose windows the clock can represent.
  predicate Run(lim: Limits, times: seq<Time>) {
    times == [] ||
    var before, last := times[..|times| - 1], times[|times| - 1];
    Run(lim, before) && NotAfter(before, last) && Representable(lim, last)
  }

  predicate NotAfter(times: seq<Time>, now: Time) { times == [] || times[|times| - 1] <= now }

  function Queue(lim: Limits, times: seq<Time>): seq<Time> {
    if times == [] then [] else Check(lim, Queue(lim, times[..|times| - 1]), times[|times| - 1]).0
  }

  // The times of the calls let through.
  function Accepted(lim: Limits, times: seq<Time>): seq<Time> {
    if times == [] then []
    else
      var before := Accepted(lim, times[..|times| - 1]);
      if Check(lim, Queue(lim, times[..|times| - 1]), times[|times| - 1]).1 then before + [times[|times| - 1]]
        else before
  }

  function Since(s: seq<Time>, lo: Time): seq<Time> {
    if s == [] then [] else (if s[0] >= lo then [s[0]] else []) + Since(s[1..], lo)
  }

  function CountIn(s: seq<Time>, lo: Time, hi: Time): nat {
    if s == [] then 0 else (if lo <= s[0] <= hi then 1 else 0) + CountIn(s[1..], lo, hi)
  }

  lemma {:induction false} SinceAll(s: seq<Time>, lo: Time)
    requires forall i :: 0 <= i < |s| ==> s[i] >= lo
    ensures Since(s, lo) == s
  {
    if s != [] {
      SinceAll(s[1..], lo);
    }
  }

  // On a sorted sequence dropping from the front is filtering.
  lemma {:induction false} DropIsSince(s: seq<Time>, lo: Time)
    requires Sorted(s)
    ensures DropBefore(s, lo) == Since(s, lo)
  {
    if s != [] && s[0] < lo {
      DropIsSince(s[1..], lo);
    } else {
      SinceAll(s, lo);
    }
  }

  lemma {:induction false} SinceSorted(s: seq<Time>, lo: Time)
    requires Sorted(s)
    ensures Sorted(Since(s, lo)) && forall t :: t in Since(s, lo) ==> t in s
  {
    if s != [] {
      SinceSorted(s[1..], lo);
    }
  }

  // Forgetting twice, the second time more, is forgetting once.
  lemma {:induction false} SinceTwice(s: seq<Time>, lo: Time, lo': Time)
    requires lo <= lo'
    ensures Since(Since(s, lo), lo') == Since(s, lo')
    ensures |Since(s, lo')| <= |Since(s, lo)|
  {
    if s != [] {
      SinceTwice(s[1..], lo, lo');
      if s[0] >= lo {
        assert Since(s, lo)[1..] == Since(s[1..], lo);
      } else {
        assert Since(s, lo) == Since(s[1..], lo);
      }
    }
  }

  lemma {:induction false} SinceLast(s: seq<Time>, t: Time, lo: Time)
    requires t >= lo
    ensures Since(s + [t], lo) == Since(s, lo) + [t]
  {
    if s == [] {
      assert s + [t] == [t];
    } else {
      SinceLast(s[1..], t, lo);
      assert (s + [t])[1..] == s[1..] + [t];
    }
  }

  lemma {:induction false} CountLast(s: seq<Time>, t: Time, lo: Time, hi: Time)
    ensures CountIn(s + [t], lo, hi) == CountIn(s, lo, hi) + if lo <= t <= hi then 1 else 0
  {
    if s == [] {
      assert s + [t] == [t];
    } else {
      CountLast(s[1..], t, lo, hi);
      assert (s + [t])[1..] == s[1..] + [t];
    }
  }

  // The size of the filtered history counts the accepted calls of the window.
  lemma {:induction false} SinceCounts(s: seq<Time>, lo: Time, hi: Time)
    requires forall i :: 0 <= i < |s| ==> s[i] <= hi
    ensures |Since(s, lo)| == CountIn(s, lo, hi)
  {
    if s != [] {
      SinceCounts(s[1..], lo, hi);
    }
  }

  lemma {:induction false} Narrower(s: seq<Time>, lo: Time, hi: Time, lo': Time, hi': Time)
    requires lo' <= lo && forall i :: 0 <= i < |s| ==> s[i] <= hi'
    ensures CountIn(s, lo, hi) <= CountIn(s, lo', hi')
  {
    if s != [] {
      Narrower(s[1..], lo, hi, lo', hi');
    }
  }

  lemma {:induction false} AcceptedSorted(lim: Limits, times: seq<Time>, now: Time)
    requires Run(lim, times) && NotAfter(times, now)
    ensures Sorted(Accepted(lim, times))
    ensures forall i :: 0 <= i < |Accepted(lim, times)| ==> Accepted(lim, times)[i] <= now
    decreases |times|
  {
    if times != [] {
      var before, last := times[..|times| - 1], times[|times| - 1];
      AcceptedSorted(lim, before, last);
    }
  }

  // Dropping what a later window no longer covers.
  lemma DropLater(s: seq<Time>, lo: Time, lo': Time)
    requires Sorted(s) && lo <= lo'
    ensures DropBefore(Since(s, lo), lo') == Since(s, lo') && |Since(s, lo')| <= |Since(s, lo)|
  {
    SinceSorted(s, lo);
    DropIsSince(Since(s, lo), lo');
    SinceTwice(s, lo, lo');
  }

  /** After every call the deque is the accepted history filtered to the current window, and it
      never holds more than the budget. */
  lemma {:induction false} QueueIsHistory(lim: Limits, times: seq<Time>)
    requires Run(lim, times) && times != []
    ensures Queue(lim, times) == Since(Accepted(lim, times), times[|times| - 1] - lim.window)
    ensures |Queue(lim, times)| <= lim.maxCalls
    decreases |times|, 0
  {
    var n := |times| - 1;
    KeptIsHistory(lim, times[..n], times[n]);
    SinceLast(Accepted(lim, times[..n]), times[n], times[n] - lim.window);
  }

  // What a call at `now` finds after dropping old entries.
  lemma {:induction false} KeptIsHistory(lim: Limits, times: seq<Time>, now: Time)
    requires Run(lim, times) && NotAfter(times, now) && Representable(lim, now)
    ensures DropBefore(Queue(lim, times), now - lim.window) == Since(Accepted(lim, times), now - lim.window)
    ensures |Since(Accepted(lim, times), now - lim.window)| <= lim.maxCalls
    decreases |times|, 1
  {
    if times != [] {
      QueueIsHistory(lim, times);
      AcceptedSorted(lim, times, now);
      DropLater(Accepted(lim, times), times[|times| - 1] - lim.window, now - lim.window);
    }
  }

  /** The trim to twice the budget never drops anything, whatever the deque holds. */
  lemma TrimNeverFires(lim: Limits, q: seq<Time>, now: Time)
    ensures var kept := DropBefore(q, Cutoff(lim, now));
      Check(lim, q, now) == if |kept| < lim.maxCalls then (kept + [now], true) else (kept, false)
  {
  }

  // The size of what the call finds is the number of accepted calls in its window.
  lemma KeptCounts(lim: Limits, times: seq<Time>, now: Time)
    requires Run(lim, times) && NotAfter(times, now) && Representable(lim, now)
    ensures |DropBefore(Queue(lim, times), now - lim.window)| == CountIn(Accepted(lim, times), now - lim.window, now)
    ensures CountIn(Accepted(lim, times), now - lim.window, now) <= lim.maxCalls
  {
    KeptIsHistory(lim, times, now);
    AcceptedSorted(lim, times, now);
    SinceCounts(Accepted(lim, times), now - lim.window, now);
  }

  lemma CheckAdmits(lim: Limits, q: seq<Time>, now: Time)
    requires Representable(lim, now)
    ensures Check(lim, q, now).1 <==> |DropBefore(q, now - lim.window)| < lim.maxCalls
  {
  }

  /** A call is turned away exactly when the budget's worth of accepted calls lie in its window. */
  lemma RejectedIffFull(lim: Limits, times: seq<Time>, now: Time)
    requires Run(lim, times) && NotAfter(times, now) && Representable(lim, now)
    ensures !Check(lim, Queue(lim, times), now).1 <==>
      CountIn(Accepted(lim, times), now - lim.window, now) == lim.maxCalls
  {
    KeptCounts(lim, times, now);
    CheckAdmits(lim, Queue(lim, times), now);
  }

  /** No closed interval of the window's length holds more accepted calls than the budget. */
  lemma {:induction false} NoBurst(lim: Limits, times: seq<Time>, x: Time)
    requires Run(lim, times)
    ensures CountIn(Accepted(lim, times), x, x + lim.window) <= lim.maxCalls
  {
    if times != [] {
      var n := |times| - 1;
      var before, now := times[..n], times[n];
      NoBurst(lim, before, x);
      if Check(lim, Queue(lim, before), now).1 {
        CountLast(Accepted(lim, before), now, x, x + lim.window);
        if x <= now <= x + lim.window {
          KeptCounts(lim, before, now);
          AcceptedSorted(lim, before, now);
          Narrower(Accepted(lim, before), x, x + lim.window, now - lim.window, now);
        }
      }
    }
  }

  // ------------------------------------------------------------------
  // A clock that has not run for a whole window
  // ------------------------------------------------------------------

  /** When the start of the window is not representable the call forgets everything that is
      not simultaneous with it, and is accepted iff fewer than the budget are. */
  lemma UnrepresentableForgets(lim: Limits, q: seq<Time>, now: Time)
    requires Sorted(q) && (forall i :: 0 <= i < |q| ==> q[i] <= now) && !Representable(lim, now)
    ensures Check(lim, q, now).1 <==> CountIn(q, now, now) < lim.maxCalls
  {
    SinceCounts(q, now, now);
    DropIsSince(q, now);
  }

  // Calls at nondecreasing times, none before `t0`.
  predicate RunFrom(times: seq<Time>, t0: Time) {
    times == [] ||
    var before, last := times[..|times| - 1], times[|times| - 1];
    RunFrom(before, t0) && NotAfter(before, last) && t0 <= last
  }

  // An earlier first clock reading that makes every window from `t0` on representable changes
  // nothing, provided only windows of calls at `t0` itself were not representable.
  lemma {:induction false} SameWithEarlierOrigin(lim: Limits, times: seq<Time>, t0: Time)
    requires RunFrom(times, t0) && (lim.window == 0 || Representable(lim, t0 + 1))
    ensures var lim' := lim.(origin := t0 - lim.window);
      Run(lim', times) && Queue(lim', times) == Queue(lim, times) && Accepted(lim', times) == Accepted(lim, times)
    ensures forall i :: 0 <= i < |Queue(lim, times)| ==> Queue(lim, times)[i] >= t0
    decreases |times|
  {
    if times != [] {
      var before, now := times[..|times| - 1], times[|times| - 1];
      SameWithEarlierOrigin(lim, before, t0);
      SameCheck(lim, Queue(lim, before), now, t0);
    }
  }

  lemma SameCheck(lim: Limits, q: seq<Time>, now: Time, t0: Time)
    requires t0 <= now && (lim.window == 0 || Representable(lim, t0 + 1)) && forall i :: 0 <= i < |q| ==> q[i] >= t0
    ensures Check(lim.(origin := t0 - lim.window), q, now) == Check(lim, q, now)
    ensures forall i :: 0 <= i < |Check(lim, q, now).0| ==> Check(lim, q, now).0[i] >= t0
  {
    DropKeepsLater(q, Cutoff(lim, now), t0);
    TrimNeverFires(lim, q, now);
  }

  lemma {:induction false} DropKeepsLater(q: seq<Time>, cutoff: Time, t0: Time)
    requires forall i :: 0 <= i < |q| ==> q[i] >= t0
    ensures forall i :: 0 <= i < |DropBefore(q, cutoff)| ==> DropBefore(q, cutoff)[i] >= t0
    ensures cutoff <= t0 ==> DropBefore(q, cutoff) == q
  {
    if q != [] && q[0] < cutoff {
      DropKeepsLater(q[1..], cutoff, t0);
    }
  }

  // A whole budget of calls at one instant.
  function Simultaneous(t: Time, n: nat): seq<Time> {
    if n == 0 then [] else Simultaneous(t, n - 1) + [t]
  }

  lemma Snoc(lim: Limits, times: seq<Time>, t: Time)
    ensures var (q, ok) := Check(lim, Queue(lim, times), t);
      Queue(lim, times + [t]) == q &&
        Accepted(lim, times + [t]) == if ok then Accepted(lim, times) + [t] else Accepted(lim, times)
  {
    assert (times + [t])[..|times|] == times;
  }

  lemma RunFromSnoc(times: seq<Time>, t: Time, t0: Time)
    requires RunFrom(times, t0) && NotAfter(times, t) && t0 <= t
    ensures RunFrom(times + [t], t0) && NotAfter(times + [t], t)
  {
    assert (times + [t])[..|times|] == times;
  }

  lemma CheckSimultaneous(lim: Limits, t: Time, n: nat)
    requires n < lim.maxCalls
    ensures Check(lim, Simultaneous(t, n), t) == (Simultaneous(t, n) + [t], true)
  {
    SimultaneousAt(t, n);
    DropKeepsLater(Simultaneous(t, n), Cutoff(lim, t), t);
    TrimNeverFires(lim, Simultaneous(t, n), t);
  }

  // The calls so far were all accepted and are all in the queue.
  ghost predicate AllIn(lim: Limits, calls: seq<Time>) { Accepted(lim, calls) == calls && Queue(lim, calls) == calls }

  lemma OneMoreIn(lim: Limits, calls: seq<Time>, t: Time)
    requires AllIn(lim, calls) && Check(lim, calls, t) == (calls + [t], true)
    ensures AllIn(lim, calls + [t])
  {
    Snoc(lim, calls, t);
  }

  lemma {:induction false} SimultaneousAccepted(lim: Limits, t: Time, n: nat)
    requires n <= lim.maxCalls
    ensures AllIn(lim, Simultaneous(t, n))
  {
    if n > 0 {
      SimultaneousAccepted(lim, t, n - 1);
      CheckSimultaneous(lim, t, n - 1);
      OneMoreIn(lim, Simultaneous(t, n - 1), t);
    }
  }

  lemma {:induction false} SimultaneousRun(t: Time, n: nat)
    ensures RunFrom(Simultaneous(t, n), t) && NotAfter(Simultaneous(t, n), t)
  {
    if n > 0 {
      SimultaneousRun(t, n - 1);
      RunFromSnoc(Simultaneous(t, n - 1), t, t);
    }
  }

  lemma {:induction false} SimultaneousAt(t: Time, n: nat)
    ensures |Simultaneous(t, n)| == n && forall i :: 0 <= i < n ==> Simultaneous(t, n)[i] == t
  {
    if n > 0 {
      SimultaneousAt(t, n - 1);
    }
  }

  lemma {:induction false} DropAll(q: seq<Time>, cutoff: Time)
    requires forall i :: 0 <= i < |q| ==> q[i] < cutoff
    ensures DropBefore(q, cutoff) == []
  {
    if q != [] {
      DropAll(q[1..], cutoff);
    }
  }

  // A whole budget at `t` and one call more a tick later.
  function Burst(lim: Limits, t: Time): seq<Time> { Simultaneous(t, lim.maxCalls) + [t + 1] }

  /** So the window bound fails there for every budget: all of these calls are accepted, one more
      than the budget within a window. */
  lemma BurstWhileUnrepresentable(lim: Limits, t: Time)
    requires lim.maxCalls >= 1 && lim.window >= 1 && !Representable(lim, t + 1)
    ensures RunFrom(Burst(lim, t), t) && Accepted(lim, Burst(lim, t)) == Burst(lim, t)
    ensures CountIn(Accepted(lim, Burst(lim, t)), t, t + lim.window) == lim.maxCalls + 1
  {
    BurstRuns(lim, t);
    BurstAccepted(lim, t);
    BurstCounted(lim, t);
  }

  lemma BurstRuns(lim: Limits, t: Time)
    ensures RunFrom(Burst(lim, t), t)
  {
    SimultaneousRun(t, lim.maxCalls);
    RunFromSnoc(Simultaneous(t, lim.maxCalls), t + 1, t);
  }

  lemma BurstCounted(lim: Limits, t: Time)
    requires lim.window >= 1
    ensures CountIn(Burst(lim, t), t, t + lim.window) == lim.maxCalls + 1
  {
    SimultaneousAt(t, lim.maxCalls);
    CountAll(Burst(lim, t), t, t + lim.window);
  }

  lemma BurstAccepted(lim: Limits, t: Time)
    requires lim.maxCalls >= 1 && !Representable(lim, t + 1)
    ensures Accepted(lim, Burst(lim, t)) == Burst(lim, t)
  {
    var first := Simultaneous(t, lim.maxCalls);
    SimultaneousAccepted(lim, t, lim.maxCalls);
    SimultaneousAt(t, lim.maxCalls);
    CheckAfterTick(lim, first, t);
    Snoc(lim, first, t + 1);
  }

  lemma CheckAfterTick(lim: Limits, q: seq<Time>, t: Time)
    requires lim.maxCalls >= 1 && !Representable(lim, t + 1) && forall i :: 0 <= i < |q| ==> q[i] == t
    ensures Check(lim, q, t + 1).1
  {
    DropAll(q, t + 1);
    TrimNeverFires(lim, q, t + 1);
  }

  lemma {:induction false} CountAll(s: seq<Time>, lo: Time, hi: Time)
    requires forall i :: 0 <= i < |s| ==> lo <= s[i] <= hi
    ensures CountIn(s, lo, hi) == |s|
  {
    if s != [] {
      CountAll(s[1..], lo, hi);
    }
  }

  lemma {:induction false} NothingAccepted(lim: Limits, times: seq<Time>)
    requires lim.maxCalls == 0
    ensures Accepted(lim, times) == []
  {
    if times != [] {
      NothingAccepted(lim, times[..|times| - 1]);
    }
  }

  ghost predicate MeetsBound(lim: Limits, times: seq<Time>, x: Time) {
    CountIn(Accepted(lim, times), x, x + lim.window) <= lim.maxCalls
  }

  /** The window bound holds in every closed window of every run of calls from `t0` on iff there is
      no budget, no window, or the clock can represent the window of a call made one tick later. */
  lemma BoundHoldsIff(lim: Limits, t0: Time)
    ensures (forall times, x :: RunFrom(times, t0) ==> MeetsBound(lim, times, x)) <==>
      lim.maxCalls == 0 || lim.window == 0 || t0 + 1 - lim.window >= lim.origin
  {
    if lim.maxCalls == 0 || lim.window == 0 || Representable(lim, t0 + 1) {
      forall times, x | RunFrom(times, t0) ensures MeetsBound(lim, times, x) {
        if lim.maxCalls == 0 {
          NothingAccepted(lim, times);
        } else {
          SameWithEarlierOrigin(lim, times, t0);
          NoBurst(lim.(origin := t0 - lim.window), times, x);
        }
      }
    } else {
      BurstWhileUnrepresentable(lim, t0);
      assert !MeetsBound(lim, Burst(lim, t0), t0);
    }
  }
}
