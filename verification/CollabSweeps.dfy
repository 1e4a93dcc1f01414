/** Idle sweeps among other operations: a sweep collects the silent members room by room under the
    registry lock and lets them leave one by one afterwards (crates/ox-api/src/collaboration.rs). */
module CollabSweeps {
  import opened Prelude
  import opened CollabRoom
  import opened CollabRegistry

  predicate InScan(task: Task) { task.Scanning? || task.ScanLocked? }

  // Before the leave takes effect.
  predicate InLeave(task: Task) { task.Looking? || task.Missed? || task.Waiting? || task.Locked? }

  function Current(sweep: Sweep): Victim
    requires 0 < sweep.reaped <= |sweep.victims|
  {
    sweep.victims[sweep.reaped - 1]
  }

  predicate Serves(task: Task, victim: Victim)
    requires InLeave(task)
  {
    !task.Missed? && task.draft == victim.draft && task.kind == KEvict(victim.user)
  }

  // A sweep evicts nobody while it scans and has scanned everything before it evicts; its task is
  // then in the leave of the victim it has reached.
  ghost predicate SweepFits(s: Sys, t: TaskId) {
    t in s.sweeps ==>
      && t in s.tasks && s.sweeps[t].reaped <= |s.sweeps[t].victims|
      && (if InScan(s.tasks[t]) then s.sweeps[t].reaped == 0 else s.sweeps[t].left == {})
      && (InLeave(s.tasks[t]) ==> s.sweeps[t].reaped > 0 && Serves(s.tasks[t], Current(s.sweeps[t])))
  }

  lemma SweepFitsStep(limits: Limits, s: Sys, l: Label, t: TaskId)
    requires SweepFits(s, t) && Allowed(s, l)
    ensures SweepFits(Next(limits, s, l), t)
  {
    if l.t != t {
      OthersKeepSweep(limits, s, l, t);
    }
  }

  lemma OthersKeepSweep(limits: Limits, s: Sys, l: Label, t: TaskId)
    requires Allowed(s, l) && l.t != t
    ensures var s' := Next(limits, s, l);
      && (t in s'.tasks <==> t in s.tasks) && (t in s.tasks ==> s'.tasks[t] == s.tasks[t])
      && (t in s'.sweeps <==> t in s.sweeps) && (t in s.sweeps ==> s'.sweeps[t] == s.sweeps[t])
  {
  }

  lemma {:induction false} SweepFitsAlways(limits: Limits, states: seq<Sys>, labels: seq<Label>, j: nat, t: TaskId)
    requires Run(limits, states, labels) && j <= |labels|
    ensures SweepFits(states[j], t)
  {
    if j > 0 {
      SweepFitsAlways(limits, states, labels, j - 1, t);
      assert Transition(limits, states[j - 1], labels[j - 1], states[j]);
      SweepFitsStep(limits, states[j - 1], labels[j - 1], t);
    }
  }

  // ------------------------------------------------------------------
  // What a sweep collects
  // ------------------------------------------------------------------

  // A step of sweep `t` that finds `u` silent in the room of `d`.
  ghost predicate Collects(s: Sys, l: Label, t: TaskId, d: DraftId, u: UserId) {
    && l.ScanLock? && l.t == t && l.draft == d && t in s.sweeps
    && u in RoomOf(s, d).members && RoomOf(s, d).members[u].lastActivityAt < s.sweeps[t].cutoff
  }

  ghost predicate Collected(states: seq<Sys>, labels: seq<Label>, j: nat, t: TaskId, d: DraftId, u: UserId)
    requires |states| == |labels| + 1 && j <= |labels|
  {
    exists c :: 0 <= c < j && Collects(states[c], labels[c], t, d, u)
  }

  predicate Listed(s: Sys, t: TaskId, d: DraftId, u: UserId) {
    t in s.sweeps && Victim(d, u) in s.sweeps[t].victims
  }

  lemma ListedStep(limits: Limits, s: Sys, l: Label, t: TaskId, d: DraftId, u: UserId)
    requires SweepFits(s, t) && Allowed(s, l)
    ensures Listed(Next(limits, s, l), t, d, u) <==> Listed(s, t, d, u) || Collects(s, l, t, d, u)
  {
    if l.t != t {
      OthersKeepSweep(limits, s, l, t);
    } else if l.ScanLock? {
      var named := Named(l.draft, l.idle);
      assert Victim(d, u) in named <==> d == l.draft && u in l.idle by {
        if d == l.draft && u in l.idle {
          var k :| 0 <= k < |l.idle| && l.idle[k] == u;
          assert named[k] == Victim(d, u);
        }
      }
    }
  }

  // The list of victims holds exactly the collected pairs.
  lemma {:induction false} ListedIffCollected(limits: Limits, states: seq<Sys>, labels: seq<Label>, j: nat, t: TaskId,
                                              d: DraftId, u: UserId)
    requires Run(limits, states, labels) && j <= |labels|
    ensures Listed(states[j], t, d, u) <==> Collected(states, labels, j, t, d, u)
  {
    if j > 0 {
      var s, l := states[j - 1], labels[j - 1];
      ListedIffCollected(limits, states, labels, j - 1, t, d, u);
      SweepFitsAlways(limits, states, labels, j - 1, t);
      assert Transition(limits, s, l, states[j]);
      ListedStep(limits, s, l, t, d, u);
      assert Collects(s, l, t, d, u) ==> Collected(states, labels, j, t, d, u);
    }
  }

  // Nobody is listed twice, and nobody of a draft still to be scanned.
  ghost predicate ListedOnce(sweep: Sweep) {
    && (forall i, k :: 0 <= i < k < |sweep.victims| ==> sweep.victims[i] != sweep.victims[k])
    && (forall i :: 0 <= i < |sweep.victims| ==> sweep.victims[i].draft !in sweep.left)
  }

  lemma ListedOnceStep(limits: Limits, s: Sys, l: Label, t: TaskId)
    requires Allowed(s, l) && (t in s.sweeps ==> ListedOnce(s.sweeps[t]))
    ensures t in Next(limits, s, l).sweeps ==> ListedOnce(Next(limits, s, l).sweeps[t])
  {
    if l.t != t {
      OthersKeepSweep(limits, s, l, t);
    }
  }

  lemma {:induction false} ListedOnceAlways(limits: Limits, states: seq<Sys>, labels: seq<Label>, j: nat, t: TaskId)
    requires Run(limits, states, labels) && j <= |labels|
    ensures t in states[j].sweeps ==> ListedOnce(states[j].sweeps[t])
  {
    if j > 0 {
      ListedOnceAlways(limits, states, labels, j - 1, t);
      assert Transition(limits, states[j - 1], labels[j - 1], states[j]);
      ListedOnceStep(limits, states[j - 1], labels[j - 1], t);
    }
  }

  ghost predicate Scanned(labels: seq<Label>, b: nat, j: nat, t: TaskId, d: DraftId)
    requires j <= |labels|
  {
    exists c :: b <= c < j && labels[c].ScanLock? && labels[c].t == t && labels[c].draft == d
  }

  // Every draft registered when the scan starts is either still to be scanned or has been.
  lemma {:induction false} LeftOrScanned(limits: Limits, states: seq<Sys>, labels: seq<Label>, b: nat, j: nat,
                                         t: TaskId, d: DraftId)
    requires Run(limits, states, labels) && b < j <= |labels|
    requires labels[b].ScanStart? && labels[b].t == t && d in states[b].registry
    ensures t in states[j].sweeps && (d in states[j].sweeps[t].left || Scanned(labels, b, j, t, d))
    ensures states[j].sweeps[t].cutoff == labels[b].now - ChronoMillis(limits.idleTimeout)
  {
    var s, l := states[j - 1], labels[j - 1];
    assert Transition(limits, s, l, states[j]);
    if j - 1 > b {
      LeftOrScanned(limits, states, labels, b, j - 1, t, d);
      SweepFitsAlways(limits, states, labels, j - 1, t);
      if l.t != t {
        OthersKeepSweep(limits, s, l, t);
      }
    }
  }

  // ------------------------------------------------------------------
  // What a sweep's leaves do
  // ------------------------------------------------------------------

  // The step at which the leave that sweep `t` performs for `u` takes effect, or finds no room.
  ghost predicate LeavesFor(s: Sys, l: Label, t: TaskId, d: DraftId, u: UserId) {
    && l.t == t && t in s.sweeps && t in s.tasks
    && (if l.Look? then s.tasks[t] == Looking(d, KEvict(u)) && d !in s.registry
        else Mutates(s, l, d) && l.op.Leave? && l.op.user == u)
  }

  // The number of leaves of sweep `t` that have taken effect.
  ghost function Taken(s: Sys, t: TaskId): int {
    if t !in s.sweeps then 0
    else s.sweeps[t].reaped - if t in s.tasks && InLeave(s.tasks[t]) then 1 else 0
  }

  ghost predicate TakesTurn(s: Sys, l: Label, t: TaskId) {
    && l.t == t && t in s.sweeps && t in s.tasks
    && (l.Mutate? || (l.Look? && s.tasks[t].Looking? && s.tasks[t].draft !in s.registry))
  }

  lemma TurnStep(limits: Limits, s: Sys, l: Label, t: TaskId)
    requires SweepFits(s, t) && Allowed(s, l)
    ensures Taken(Next(limits, s, l), t) == Taken(s, t) + if TakesTurn(s, l, t) then 1 else 0
  {
    if l.t != t {
      OthersKeepSweep(limits, s, l, t);
    }
  }

  lemma VictimsGrow(limits: Limits, s: Sys, l: Label, t: TaskId)
    requires SweepFits(s, t) && Allowed(s, l) && t in s.sweeps
    ensures t in Next(limits, s, l).sweeps && s.sweeps[t].victims <= Next(limits, s, l).sweeps[t].victims
  {
    if l.t != t {
      OthersKeepSweep(limits, s, l, t);
    }
  }

  // A turn is the leave of the victim whose turn it is.
  lemma TurnIsLeave(s: Sys, l: Label, t: TaskId, d: DraftId, u: UserId)
    requires SweepFits(s, t) && Allowed(s, l)
    ensures LeavesFor(s, l, t, d, u) <==>
      TakesTurn(s, l, t) && 0 <= Taken(s, t) < |s.sweeps[t].victims| &&
      s.sweeps[t].victims[Taken(s, t)] == Victim(d, u)
  {
  }

  lemma {:induction false} TakenGrows(limits: Limits, states: seq<Sys>, labels: seq<Label>, i: nat, j: nat, t: TaskId)
    requires Run(limits, states, labels) && i <= j <= |labels|
    ensures 0 <= Taken(states[i], t) <= Taken(states[j], t)
  {
    SweepFitsAlways(limits, states, labels, i, t);
    if i < j {
      TakenGrows(limits, states, labels, i, j - 1, t);
      SweepFitsAlways(limits, states, labels, j - 1, t);
      assert Transition(limits, states[j - 1], labels[j - 1], states[j]);
      TurnStep(limits, states[j - 1], labels[j - 1], t);
    }
  }

  // The list of victims of sweep `t` starts with these.
  predicate ListStarts(s: Sys, t: TaskId, victims: seq<Victim>) {
    t in s.sweeps && victims <= s.sweeps[t].victims
  }

  lemma ListStartsStep(limits: Limits, s: Sys, l: Label, t: TaskId, victims: seq<Victim>)
    requires SweepFits(s, t) && Allowed(s, l) && ListStarts(s, t, victims)
    ensures ListStarts(Next(limits, s, l), t, victims)
  {
    VictimsGrow(limits, s, l, t);
    PrefixOfPrefix(victims, s.sweeps[t].victims, Next(limits, s, l).sweeps[t].victims);
  }

  lemma {:induction false} ListGrows(limits: Limits, states: seq<Sys>, labels: seq<Label>, i: nat, j: nat, t: TaskId)
    requires Run(limits, states, labels) && i <= j <= |labels| && t in states[i].sweeps
    ensures ListStarts(states[j], t, states[i].sweeps[t].victims)
  {
    if i < j {
      ListGrows(limits, states, labels, i, j - 1, t);
      SweepFitsAlways(limits, states, labels, j - 1, t);
      assert Transition(limits, states[j - 1], labels[j - 1], states[j]);
      ListStartsStep(limits, states[j - 1], labels[j - 1], t, states[i].sweeps[t].victims);
    }
  }

  lemma PrefixOfPrefix(a: seq<Victim>, b: seq<Victim>, c: seq<Victim>)
    requires a <= b <= c
    ensures a <= c
  {
  }

  lemma {:induction false} TurnExists(limits: Limits, states: seq<Sys>, labels: seq<Label>, j: nat, t: TaskId, m: nat)
    returns (p: nat)
    requires Run(limits, states, labels) && j <= |labels| && m < Taken(states[j], t)
    ensures p < j && TakesTurn(states[p], labels[p], t) && Taken(states[p], t) == m
  {
    if j == 0 {
      assert false;
    } else {
      SweepFitsAlways(limits, states, labels, j - 1, t);
      assert Transition(limits, states[j - 1], labels[j - 1], states[j]);
      TurnStep(limits, states[j - 1], labels[j - 1], t);
      if m < Taken(states[j - 1], t) {
        p := TurnExists(limits, states, labels, j - 1, t, m);
      } else {
        p := j - 1;
      }
    }
  }

  // Everybody collected has been let go and the sweep has returned.
  ghost predicate Finished(s: Sys, t: TaskId) {
    t in s.sweeps && t in s.tasks && s.tasks[t].Done? && s.sweeps[t].reaped == |s.sweeps[t].victims|
  }

  // The leave of one victim comes after its collection.
  lemma LeaveIsOfCollected(limits: Limits, states: seq<Sys>, labels: seq<Label>, p: nat, t: TaskId, d: DraftId,
                           u: UserId)
    requires Run(limits, states, labels) && p < |labels| && LeavesFor(states[p], labels[p], t, d, u)
    ensures Collected(states, labels, p, t, d, u)
  {
    SweepFitsAlways(limits, states, labels, p, t);
    assert Transition(limits, states[p], labels[p], states[p + 1]);
    TurnIsLeave(states[p], labels[p], t, d, u);
    ListedIffCollected(limits, states, labels, p, t, d, u);
  }

  lemma CollectedLeaves(limits: Limits, states: seq<Sys>, labels: seq<Label>, j: nat, t: TaskId, d: DraftId, u: UserId)
    returns (p: nat)
    requires Run(limits, states, labels) && j <= |labels| && Finished(states[j], t)
    requires Collected(states, labels, j, t, d, u)
    ensures p < j && LeavesFor(states[p], labels[p], t, d, u)
  {
    ListedIffCollected(limits, states, labels, j, t, d, u);
    var victims := states[j].sweeps[t].victims;
    var m: nat :| m < |victims| && victims[m] == Victim(d, u);
    p := TurnExists(limits, states, labels, j, t, m);
    SweepFitsAlways(limits, states, labels, p, t);
    assert Transition(limits, states[p], labels[p], states[p + 1]);
    TakenGrows(limits, states, labels, p, j, t);
    ListGrows(limits, states, labels, p, j, t);
    assert m < |states[p].sweeps[t].victims|;
    TurnIsLeave(states[p], labels[p], t, d, u);
  }

  lemma LeavesOnce(limits: Limits, states: seq<Sys>, labels: seq<Label>, p: nat, q: nat, t: TaskId, d: DraftId,
                   u: UserId)
    requires Run(limits, states, labels) && p < q < |labels|
    requires LeavesFor(states[p], labels[p], t, d, u)
    ensures !LeavesFor(states[q], labels[q], t, d, u)
  {
    SweepFitsAlways(limits, states, labels, p, t);
    SweepFitsAlways(limits, states, labels, q, t);
    assert Transition(limits, states[p], labels[p], states[p + 1]);
    assert Transition(limits, states[q], labels[q], states[q + 1]);
    TurnIsLeave(states[p], labels[p], t, d, u);
    TurnIsLeave(states[q], labels[q], t, d, u);
    TurnStep(limits, states[p], labels[p], t);
    TakenGrows(limits, states, labels, p, q, t);
    TakenGrows(limits, states, labels, p + 1, q, t);
    ListGrows(limits, states, labels, p, q, t);
    ListedOnceAlways(limits, states, labels, q, t);
  }

  /** A finished sweep has performed exactly one leave for each pair it collected, after collecting
      it, and no other. */
  lemma SweepLeavesOnce(limits: Limits, states: seq<Sys>, labels: seq<Label>, j: nat, t: TaskId, d: DraftId, u: UserId)
    requires Run(limits, states, labels) && j <= |labels| && Finished(states[j], t)
    ensures Collected(states, labels, j, t, d, u) <==>
      exists p :: 0 <= p < j && LeavesFor(states[p], labels[p], t, d, u) && Collected(states, labels, p, t, d, u)
    ensures forall p, q :: 0 <= p < q < j && LeavesFor(states[p], labels[p], t, d, u) ==>
      !LeavesFor(states[q], labels[q], t, d, u)
  {
    if Collected(states, labels, j, t, d, u) {
      var p := CollectedLeaves(limits, states, labels, j, t, d, u);
      LeaveIsOfCollected(limits, states, labels, p, t, d, u);
    }
    forall p, q | 0 <= p < q < j && LeavesFor(states[p], labels[p], t, d, u)
      ensures !LeavesFor(states[q], labels[q], t, d, u)
    {
      LeavesOnce(limits, states, labels, p, q, t, d, u);
    }
  }

  lemma {:induction false} DistinctCount(victims: seq<Victim>)
    requires forall i, k :: 0 <= i < k < |victims| ==> victims[i] != victims[k]
    ensures |set v | v in victims| == |victims|
  {
    if victims != [] {
      var init, last := victims[..|victims| - 1], victims[|victims| - 1];
      DistinctCount(init);
      assert (set v | v in victims) == (set v | v in init) + {last};
    }
  }

  /** The total it returns is the number of pairs collected. */
  lemma SweepTotal(limits: Limits, states: seq<Sys>, labels: seq<Label>, j: nat, t: TaskId) returns (pairs: set<Victim>)
    requires Run(limits, states, labels) && j <= |labels| && Finished(states[j], t)
    ensures forall d, u :: Victim(d, u) in pairs <==> Collected(states, labels, j, t, d, u)
    ensures states[j].sweeps[t].reaped == |pairs|
  {
    pairs := set v | v in states[j].sweeps[t].victims;
    ListedOnceAlways(limits, states, labels, j, t);
    DistinctCount(states[j].sweeps[t].victims);
    forall d, u ensures Victim(d, u) in pairs <==> Collected(states, labels, j, t, d, u) {
      ListedIffCollected(limits, states, labels, j, t, d, u);
    }
  }

  /** A step of a sweep takes a member out of a room exactly if it is that member's leave, and the
      member, collected before, is still there, whatever it did since; or if a leave that saw the room
      empty removes it with members who had joined in between. */
  lemma SweepEvictsPresent(limits: Limits, states: seq<Sys>, labels: seq<Label>, p: nat, t: TaskId, d: DraftId,
                           u: UserId)
    requires Run(limits, states, labels) && p < |labels| && labels[p].t == t && t in states[p].sweeps
    requires u in RoomOf(states[p], d).members
    ensures u !in RoomOf(states[p + 1], d).members <==>
      (LeavesFor(states[p], labels[p], t, d, u) && Collected(states, labels, p, t, d, u)) ||
      LosesRejoiner(states[p], labels[p], d, u)
  {
    var s, l := states[p], labels[p];
    assert Transition(limits, s, l, states[p + 1]);
    SingleRoomAlways(limits, states, labels, p);
    SweepFitsAlways(limits, states, labels, p, t);
    RoomStep(limits, s, l, d);
    if LeavesFor(s, l, t, d, u) {
      LeaveIsOfCollected(limits, states, labels, p, t, d, u);
    }
    if Removes(s, l) && s.tasks[l.t].draft == d {
      LossIsOfMember(limits, states, labels, p, d, u);
    }
  }

  /** What the sweep is for: a member of any draft who is silent past the timeout as long as it is
      there does not stay in the room until the sweep has finished. */
  lemma SilentIsEvicted(limits: Limits, states: seq<Sys>, labels: seq<Label>, b: nat, j: nat, t: TaskId, d: DraftId,
                        u: UserId)
    requires Run(limits, states, labels) && b < j <= |labels| && labels[b].ScanStart? && labels[b].t == t
    requires Finished(states[j], t) && u in RoomOf(states[b], d).members
    requires forall k :: b <= k <= j && u in RoomOf(states[k], d).members ==>
      RoomOf(states[k], d).members[u].lastActivityAt < labels[b].now - ChronoMillis(limits.idleTimeout)
    ensures exists k :: b < k <= j && u !in RoomOf(states[k], d).members
  {
    LeftOrScanned(limits, states, labels, b, j, t, d);
    SweepFitsAlways(limits, states, labels, j, t);
    var c :| b <= c < j && labels[c].ScanLock? && labels[c].t == t && labels[c].draft == d;
    assert c != b;
    LeftOrScanned(limits, states, labels, b, c, t, d);
    if u in RoomOf(states[c], d).members {
      assert Collects(states[c], labels[c], t, d, u);
      var p := CollectedLeaves(limits, states, labels, j, t, d, u);
      LeaveIsOfCollected(limits, states, labels, p, t, d, u);
      CollectedAfterStart(limits, states, labels, b, p, t, d, u);
      assert LeavesFor(states[p], labels[p], t, d, u);
      if u in RoomOf(states[p], d).members {
        SweepEvictsPresent(limits, states, labels, p, t, d, u);
      }
    }
  }

  // A sweep collects nothing before it starts.
  lemma CollectedAfterStart(limits: Limits, states: seq<Sys>, labels: seq<Label>, b: nat, p: nat, t: TaskId,
                            d: DraftId, u: UserId)
    requires Run(limits, states, labels) && b < |labels| && labels[b].ScanStart? && labels[b].t == t
    requires p <= |labels| && Collected(states, labels, p, t, d, u)
    ensures b < p
  {
    assert Transition(limits, states[b], labels[b], states[b + 1]);
    SweepFitsAlways(limits, states, labels, b, t);
    if p <= b {
      ListedIffCollected(limits, states, labels, p, t, d, u);
      ListGrows(limits, states, labels, p, b, t);
    }
  }

  // ------------------------------------------------------------------
  // A member who became active in the meantime
  // ------------------------------------------------------------------

  // `user`, the only member of the only room, is collected by sweep 1, which starts at `now`.
  lemma CollectAlone(limits: Limits, states: seq<Sys>, labels: seq<Label>, d: DraftId, user: UserId, now: Time)
    returns (states': seq<Sys>, labels': seq<Label>)
    requires Run(limits, states, labels) && Quiet(states[|labels|], d) && 1 !in states[|labels|].tasks
    requires states[|labels|].registry.Keys == {d}
    requires SilentSince(RoomOf(states[|labels|], d), now - ChronoMillis(limits.idleTimeout)) == {user}
    ensures Run(limits, states', labels') && states <= states'
    ensures labels' == labels + [ScanStart(1, now), ScanLock(1, d, [user])]
    ensures Collects(states'[|labels| + 1], labels'[|labels| + 1], 1, d, user)
    ensures var s, s' := states[|labels|], states'[|labels'|];
      && s' == s.(tasks := s'.tasks, sweeps := s'.sweeps)
      && s'.tasks == s.tasks[1 := ScanLocked(d, s.registry[d])]
      && 1 in s'.sweeps && s'.sweeps[1].left == {} && s'.sweeps[1].victims == [Victim(d, user)]
      && s'.sweeps[1].reaped == 0
  {
    var states1, labels1 := Extend(limits, states, labels, ScanStart(1, now));
    states', labels' := Extend(limits, states1, labels1, ScanLock(1, d, [user]));
    assert Named(d, [user]) == [Victim(d, user)];
  }

  lemma ScanAlone(limits: Limits, states: seq<Sys>, labels: seq<Label>, d: DraftId, user: UserId, now: Time)
    returns (states': seq<Sys>, labels': seq<Label>)
    requires Run(limits, states, labels) && Quiet(states[|labels|], d) && 1 !in states[|labels|].tasks
    requires states[|labels|].registry.Keys == {d}
    requires SilentSince(RoomOf(states[|labels|], d), now - ChronoMillis(limits.idleTimeout)) == {user}
    ensures Run(limits, states', labels') && states <= states'
    ensures labels' == labels + [ScanStart(1, now), ScanLock(1, d, [user]), ScanUnlock(1), ScanEnd(1)]
    ensures Collects(states'[|labels| + 1], labels'[|labels| + 1], 1, d, user)
    ensures var s, s' := states[|labels|], states'[|labels'|];
      && s' == s.(tasks := s.tasks[1 := Done], sweeps := s'.sweeps)
      && 1 in s'.sweeps && s'.sweeps[1].victims == [Victim(d, user)] && s'.sweeps[1].reaped == 0
  {
    var states1, labels1 := CollectAlone(limits, states, labels, d, user, now);
    var states2, labels2 := Extend(limits, states1, labels1, ScanUnlock(1));
    states', labels' := Extend(limits, states2, labels2, ScanEnd(1));
  }

  // Sweep 1 has found the room of its one victim.
  lemma ReachVictim(limits: Limits, states: seq<Sys>, labels: seq<Label>, d: DraftId, user: UserId)
    returns (states': seq<Sys>, labels': seq<Label>)
    requires Run(limits, states, labels)
    requires var s := states[|labels|];
      && d in s.registry && 1 in s.tasks && s.tasks[1].Done?
      && 1 in s.sweeps && s.sweeps[1].victims == [Victim(d, user)] && s.sweeps[1].reaped == 0
    ensures Run(limits, states', labels') && states <= states' && labels' == labels + [ReapNext(1), Look(1)]
    ensures var s, s' := states[|labels|], states'[|labels'|];
      && s' == s.(tasks := s'.tasks, sweeps := s'.sweeps)
      && s'.tasks == s.tasks[1 := Waiting(d, KEvict(user), s.registry[d])]
      && 1 in s'.sweeps && s'.sweeps[1].victims == [Victim(d, user)] && s'.sweeps[1].reaped == 1
  {
    var states1, labels1 := Extend(limits, states, labels, ReapNext(1));
    states', labels' := Extend(limits, states1, labels1, Look(1));
  }

  // And lets it leave, at `now`.
  lemma ReapAlone(limits: Limits, states: seq<Sys>, labels: seq<Label>, d: DraftId, user: UserId, now: Time)
    returns (states': seq<Sys>, labels': seq<Label>, p: nat)
    requires Run(limits, states, labels)
    requires var s := states[|labels|];
      && Ready(s, 1, Leave(user, [], now)) && s.tasks[1].draft == d
      && 1 in s.sweeps && s.sweeps[1].victims == [Victim(d, user)] && s.sweeps[1].reaped == 1
    ensures Run(limits, states', labels') && GoesOn(states, labels, states', labels', d, now)
    ensures |labels| <= p < |labels'| && labels'[p] == Mutate(1, Leave(user, [], now))
    ensures LeavesFor(states'[p], labels'[p], 1, d, user)
    ensures RoomOf(states'[p], d) == RoomOf(states[|labels|], d)
    ensures RoomOf(states'[p + 1], d) == Step(limits, RoomOf(states[|labels|], d), Leave(user, [], now))
    ensures Finished(states'[|labels'|], 1)
  {
    var states1, labels1;
    states1, labels1, p := Perform(limits, states, labels, 1, Leave(user, [], now));
    if states1[|labels1|].tasks[1].Vacating? {
      states', labels' := Extend(limits, states1, labels1, Vacate(1));
    } else {
      states', labels' := states1, labels1;
    }
  }

  // `user` has joined at `t` and been collected by sweep 1, which started at `now`.
  lemma CollectedByNow(limits: Limits, d: DraftId, user: UserId, t: Time, now: Time)
    returns (states: seq<Sys>, labels: seq<Label>, b: nat)
    requires t < now - ChronoMillis(limits.idleTimeout)
    ensures Run(limits, states, labels) && ReadBy(states, labels, d, t) && forall e :: Clocked(states, labels, e)
    ensures b + 1 < |labels| && labels[b] == ScanStart(1, now) && Collects(states[b + 1], labels[b + 1], 1, d, user)
    ensures var s := states[|labels|];
      && Quiet(s, d) && s.registry.Keys == {d} && RoomOf(s, d).locks == map[] && UnusedFrom(s, 2)
      && 1 in s.tasks && s.tasks[1].Done?
      && 1 in s.sweeps && s.sweeps[1].victims == [Victim(d, user)] && s.sweeps[1].reaped == 0
  {
    var states0, labels0, m0 := Alone(limits, [INITIAL], [], d, Join(user, user, t), 0, t);
    GoesOnInOrder([INITIAL], [], states0, labels0, d, t);
    b := |labels0|;
    states, labels := ScanAlone(limits, states0, labels0, d, user, now);
    assert GoesOn(states0, labels0, states, labels, d, t);
    GoesOnInOrder(states0, labels0, states, labels, d, t);
  }

  // And joins anew before its turn.
  lemma ActiveAfterCollection(limits: Limits, d: DraftId, user: UserId, t: Time, now: Time)
    returns (states: seq<Sys>, labels: seq<Label>, b: nat)
    requires t < now - ChronoMillis(limits.idleTimeout)
    ensures Run(limits, states, labels) && ReadBy(states, labels, d, now) && forall e :: Clocked(states, labels, e)
    ensures b + 1 < |labels| && labels[b] == ScanStart(1, now) && Collects(states[b + 1], labels[b + 1], 1, d, user)
    ensures var s := states[|labels|]; var r := RoomOf(s, d);
      && Quiet(s, d) && d in s.registry && r.locks == map[]
      && user in r.members && r.members[user].lastActivityAt == now
      && 1 in s.tasks && s.tasks[1].Done?
      && 1 in s.sweeps && s.sweeps[1].victims == [Victim(d, user)] && s.sweeps[1].reaped == 0
  {
    var states1, labels1;
    states1, labels1, b := CollectedByNow(limits, d, user, t, now);
    assert ReadBy(states1, labels1, d, now);
    var m: nat;
    states, labels, m := Alone(limits, states1, labels1, d, Join(user, user, now), 2, now);
    GoesOnInOrder(states1, labels1, states, labels, d, now);
    assert states[b + 1] == states1[b + 1];
  }

  /** The eviction does not look at the member again: a sweep that starts at `now` evicts, at `now`, a
      member who joined anew at `now`, after it had been collected. */
  lemma SweepEvictsTheActive(limits: Limits, d: DraftId, user: UserId, t: Time, now: Time)
    returns (states: seq<Sys>, labels: seq<Label>, b: nat, p: nat)
    requires t < now - ChronoMillis(limits.idleTimeout)
    ensures Run(limits, states, labels) && forall e :: Clocked(states, labels, e)
    ensures b + 1 < p < |labels| && labels[b] == ScanStart(1, now) && Collects(states[b + 1], labels[b + 1], 1, d, user)
    ensures labels[p] == Mutate(1, Leave(user, [], now)) && LeavesFor(states[p], labels[p], 1, d, user)
    ensures user in RoomOf(states[p], d).members && RoomOf(states[p], d).members[user].lastActivityAt == now
    ensures user !in RoomOf(states[p + 1], d).members && Finished(states[|labels|], 1)
  {
    var states1, labels1;
    states1, labels1, b := ActiveAfterCollection(limits, d, user, t, now);
    var states2, labels2 := ReachVictim(limits, states1, labels1, d, user);
    states, labels, p := ReapAlone(limits, states2, labels2, d, user, now);
    assert GoesOn(states1, labels1, states2, labels2, d, now);
    GoesOnLonger(states1, labels1, states2, labels2, states, labels, d, now);
    GoesOnInOrder(states1, labels1, states, labels, d, now);
    assert states[b + 1] == states1[b + 1];
  }
}
