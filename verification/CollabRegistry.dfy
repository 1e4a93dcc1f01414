/** The hub's room registry at the granularity of its await points: an operation clones a
    room handle, locks the room, unlocks it, drops the handle and, after a leave that saw the
    room empty, takes the registry write lock and removes the room if nobody else holds a
    handle (crates/ox-api/src/collaboration.rs). */
module CollabRegistry {
  import opened Prelude
  import opened CollabRoom
  import opened CollabLife

  type DraftId = string
  type RoomId = nat
  type TaskId = nat

  // KEvict is the leave a sweep performs for one of its victims.
  datatype Kind = KJoin | KLeave | KMove | KAcquire | KRelease | KAnnounce | KEvict(user: UserId)

  function KindOf(op: RoomOp): Kind {
    match op
    case Join(_, _, _) => KJoin
    case Leave(_, _, _) => KLeave
    case MoveCursor(_, _, _, _) => KMove
    case Acquire(_, _, _, _) => KAcquire
    case Release(_, _, _) => KRelease
    case Announce(_, _) => KAnnounce
  }

  predicate Performs(kind: Kind, op: RoomOp) {
    if kind.KEvict? then op.Leave? && op.user == kind.user else kind == KindOf(op)
  }

  // Where an operation stands between two await points.
  datatype Task =
    | Looking(draft: DraftId, kind: Kind)
    | Missed(draft: DraftId, kind: Kind)                  // not found; a creator queues for the write lock
    | Waiting(draft: DraftId, kind: Kind, room: RoomId)   // holds a handle
    | Locked(draft: DraftId, kind: Kind, room: RoomId)    // and the room's mutex
    | Unlocked(draft: DraftId, room: RoomId, empty: bool, mark: nat)
    | Vacating(draft: DraftId, mark: nat)                 // no handle left; saw the room empty
    | Scanning                                            // an idle sweep under the registry read lock
    | ScanLocked(draft: DraftId, room: RoomId)            // and with one room's mutex
    | Done

  // What happened to the room of a draft id, in order; a leaver's mark is a position in it.
  datatype Effect = Applied(op: RoomOp) | Removed

  datatype Victim = Victim(draft: DraftId, user: UserId)

  // An idle sweep: the drafts it has still to scan, whom it has collected, and how many of them
  // it has begun to evict. Each eviction is a leave that the sweep's own task performs and awaits.
  datatype Sweep = Sweep(cutoff: Time, left: set<DraftId>, victims: seq<Victim>, reaped: nat)

  datatype Sys = Sys(registry: map<DraftId, RoomId>, rooms: map<RoomId, RoomState>, tasks: map<TaskId, Task>,
                     trail: map<DraftId, seq<Effect>>, sweeps: map<TaskId, Sweep>)

  const INITIAL := Sys(map[], map[], map[], map[], map[])

  datatype Label =
    | Spawn(t: TaskId, draft: DraftId, kind: Kind)
    | Look(t: TaskId)
    | Create(t: TaskId, id: RoomId)
    | Lock(t: TaskId)
    | Mutate(t: TaskId, op: RoomOp)
    | DropHandle(t: TaskId)
    | Vacate(t: TaskId)
    | ScanStart(t: TaskId, now: Time)
    | ScanLock(t: TaskId, draft: DraftId, idle: seq<UserId>)
    | ScanUnlock(t: TaskId)
    | ScanEnd(t: TaskId)
    | ReapNext(t: TaskId)

  predicate HasHandle(task: Task) {
    task.Waiting? || task.Locked? || task.Unlocked?
  }

  predicate HasMutex(task: Task) {
    task.Locked? || task.ScanLocked?
  }

  ghost predicate MutexFree(s: Sys, r: RoomId) {
    forall t :: t in s.tasks && HasMutex(s.tasks[t]) ==> s.tasks[t].room != r
  }

  ghost predicate WriteLockFree(s: Sys) {
    forall t :: t in s.tasks ==> !s.tasks[t].Scanning? && !s.tasks[t].ScanLocked?
  }

  function Holders(s: Sys, r: RoomId): set<TaskId> {
    set t | t in s.tasks && HasHandle(s.tasks[t]) && s.tasks[t].room == r
  }

  // The registry's own reference plus one per handle in flight.
  function StrongCount(s: Sys, r: RoomId): nat {
    1 + |Holders(s, r)|
  }

  function TrailOf(s: Sys, d: DraftId): seq<Effect> {
    if d in s.trail then s.trail[d] else []
  }

  // The room a newcomer to draft `d` would find.
  function RoomOf(s: Sys, d: DraftId): RoomState {
    if d in s.registry && s.registry[d] in s.rooms then s.rooms[s.registry[d]] else EMPTY_ROOM
  }

  function SilentSince(r: RoomState, cutoff: Time): set<UserId> {
    set u | u in r.members && r.members[u].lastActivityAt < cutoff
  }

  function Named(d: DraftId, users: seq<UserId>): seq<Victim> {
    seq(|users|, i requires 0 <= i < |users| => Victim(d, users[i]))
  }

  ghost predicate Allowed(s: Sys, l: Label) {
    match l
    case Spawn(t, _, kind) => t !in s.tasks && !kind.KEvict?
    case Look(t) => t in s.tasks && s.tasks[t].Looking?
    case Create(t, id) => t in s.tasks && s.tasks[t].Missed? && id !in s.rooms && WriteLockFree(s)
    case Lock(t) => t in s.tasks && s.tasks[t].Waiting? && MutexFree(s, s.tasks[t].room)
    case Mutate(t, op) => t in s.tasks && s.tasks[t].Locked? && Performs(s.tasks[t].kind, op)
                          && s.tasks[t].room in s.rooms && Enabled(s.rooms[s.tasks[t].room], op)
    case DropHandle(t) => t in s.tasks && s.tasks[t].Unlocked?
    case Vacate(t) => t in s.tasks && s.tasks[t].Vacating? && WriteLockFree(s)
    case ScanStart(t, _) => t !in s.tasks
    case ScanLock(t, d, idle) => t in s.tasks && s.tasks[t].Scanning? && t in s.sweeps && d in s.sweeps[t].left
                                 && d in s.registry && MutexFree(s, s.registry[d])
                                 && Enumerates(idle, SilentSince(RoomOf(s, d), s.sweeps[t].cutoff))
    case ScanUnlock(t) => t in s.tasks && s.tasks[t].ScanLocked?
    case ScanEnd(t) => t in s.tasks && s.tasks[t].Scanning? && t in s.sweeps && s.sweeps[t].left == {}
    case ReapNext(t) => t in s.tasks && s.tasks[t].Done? && t in s.sweeps && s.sweeps[t].reaped < |s.sweeps[t].victims|
  }

  function SetTask(s: Sys, t: TaskId, task: Task): Sys {
    s.(tasks := s.tasks[t := task])
  }

  function Record(s: Sys, d: DraftId, e: Effect): map<DraftId, seq<Effect>> {
    s.trail[d := TrailOf(s, d) + [e]]
  }

  predicate Mutates(s: Sys, l: Label, d: DraftId) {
    l.Mutate? && l.t in s.tasks && s.tasks[l.t].Locked? && s.tasks[l.t].draft == d
  }

  // A leaver whose turn has come removes the room if the registry holds the only reference.
  predicate Removes(s: Sys, l: Label) {
    && l.Vacate? && l.t in s.tasks && s.tasks[l.t].Vacating?
    && s.tasks[l.t].draft in s.registry && StrongCount(s, s.registry[s.tasks[l.t].draft]) == 1
  }

  function Next(limits: Limits, s: Sys, l: Label): Sys
    requires Allowed(s, l)
  {
    match l
    case Spawn(t, d, kind) => SetTask(s, t, Looking(d, kind))
    case Look(t) =>
      var d, kind := s.tasks[t].draft, s.tasks[t].kind;
      if d in s.registry then SetTask(s, t, Waiting(d, kind, s.registry[d]))
      else SetTask(s, t, if kind.KJoin? || kind.KAcquire? then Missed(d, kind) else Done)
    case Create(t, id) =>
      var d, kind := s.tasks[t].draft, s.tasks[t].kind;
      if d in s.registry then SetTask(s, t, Waiting(d, kind, s.registry[d]))
      else SetTask(s, t, Waiting(d, kind, id)).(registry := s.registry[d := id], rooms := s.rooms[id := EMPTY_ROOM])
    case Lock(t) => SetTask(s, t, Locked(s.tasks[t].draft, s.tasks[t].kind, s.tasks[t].room))
    case Mutate(t, op) =>
      var d, r := s.tasks[t].draft, s.tasks[t].room;
      var after := Step(limits, s.rooms[r], op);
      SetTask(s, t, Unlocked(d, r, op.Leave? && after.members == map[], |TrailOf(s, d)| + 1))
        .(rooms := s.rooms[r := after], trail := Record(s, d, Applied(op)))
    case DropHandle(t) =>
      SetTask(s, t, if s.tasks[t].empty then Vacating(s.tasks[t].draft, s.tasks[t].mark) else Done)
    case Vacate(t) =>
      var d := s.tasks[t].draft;
      if Removes(s, l) then SetTask(s, t, Done).(registry := s.registry - {d}, trail := Record(s, d, Removed))
      else SetTask(s, t, Done)
    case ScanStart(t, now) =>
      SetTask(s, t, Scanning)
        .(sweeps := s.sweeps[t := Sweep(now - ChronoMillis(limits.idleTimeout), s.registry.Keys, [], 0)])
    case ScanLock(t, d, idle) =>
      var sweep := s.sweeps[t];
      SetTask(s, t, ScanLocked(d, s.registry[d]))
        .(sweeps := s.sweeps[t := sweep.(left := sweep.left - {d}, victims := sweep.victims + Named(d, idle))])
    case ScanUnlock(t) => SetTask(s, t, Scanning)
    case ScanEnd(t) => SetTask(s, t, Done)
    case ReapNext(t) =>
      var sweep := s.sweeps[t];
      var victim := sweep.victims[sweep.reaped];
      SetTask(s, t, Looking(victim.draft, KEvict(victim.user)))
        .(sweeps := s.sweeps[t := sweep.(reaped := sweep.reaped + 1)])
  }

  ghost predicate Run(limits: Limits, states: seq<Sys>, labels: seq<Label>) {
    && |states| == |labels| + 1 && states[0] == INITIAL
    && forall i :: 0 <= i < |labels| ==> Transition(limits, states[i], labels[i], states[i + 1])
  }

  ghost predicate Transition(limits: Limits, s: Sys, l: Label, s': Sys) {
    Allowed(s, l) && s' == Next(limits, s, l)
  }

  // ------------------------------------------------------------------
  // One live room per draft id
  // ------------------------------------------------------------------

  predicate Pinned(s: Sys, task: Task)
    requires HasHandle(task) || HasMutex(task)
  {
    task.draft in s.registry && s.registry[task.draft] == task.room
  }

  // Every handle in flight and every locked mutex is that of the room registered under its
  // draft id, drafts do not share rooms, and a mutex has at most one holder.
  ghost predicate SingleRoom(s: Sys) {
    && (forall t :: t in s.tasks && (HasHandle(s.tasks[t]) || HasMutex(s.tasks[t])) ==> Pinned(s, s.tasks[t]))
    && (forall d :: d in s.registry ==> s.registry[d] in s.rooms)
    && (forall d, d' :: d in s.registry && d' in s.registry && s.registry[d] == s.registry[d'] ==> d == d')
    && (forall t, t' :: t in s.tasks && t' in s.tasks && t != t' ==> !Contend(s.tasks[t], s.tasks[t']))
  }

  predicate Contend(a: Task, b: Task) {
    HasMutex(a) && HasMutex(b) && a.room == b.room
  }

  // A count of one means that no operation holds a handle.
  lemma UnsharedHasNoHandle(s: Sys, r: RoomId)
    ensures StrongCount(s, r) == 1 <==> forall t :: t in s.tasks && HasHandle(s.tasks[t]) ==> s.tasks[t].room != r
  {
    assert forall t :: t in s.tasks && HasHandle(s.tasks[t]) && s.tasks[t].room == r ==> t in Holders(s, r);
    if |Holders(s, r)| != 0 {
      var t :| t in Holders(s, r);
    }
  }

  lemma SetTaskKeepsSingleRoom(s: Sys, t: TaskId, task: Task)
    requires SingleRoom(s)
    requires HasHandle(task) || HasMutex(task) ==> Pinned(s, task)
    requires forall t' :: t' in s.tasks && t' != t ==> !Contend(s.tasks[t'], task)
    ensures SingleRoom(SetTask(s, t, task))
  {
  }

  lemma CreateKeepsSingleRoom(limits: Limits, s: Sys, l: Label)
    requires SingleRoom(s) && Allowed(s, l) && l.Create? && s.tasks[l.t].draft !in s.registry
    ensures SingleRoom(Next(limits, s, l))
  {
    var s' := Next(limits, s, l);
    var grown := s.(registry := s'.registry, rooms := s'.rooms);
    assert SingleRoom(grown);
    SetTaskKeepsSingleRoom(grown, l.t, s'.tasks[l.t]);
  }

  lemma RemovalKeepsSingleRoom(limits: Limits, s: Sys, l: Label)
    requires SingleRoom(s) && Allowed(s, l) && Removes(s, l)
    ensures SingleRoom(Next(limits, s, l))
  {
    UnsharedHasNoHandle(s, s.registry[s.tasks[l.t].draft]);
    SetTaskKeepsSingleRoom(s, l.t, Done);
  }

  lemma SingleRoomStep(limits: Limits, s: Sys, l: Label)
    requires SingleRoom(s) && Allowed(s, l)
    ensures SingleRoom(Next(limits, s, l))
  {
    if l.Create? && s.tasks[l.t].draft !in s.registry {
      CreateKeepsSingleRoom(limits, s, l);
    } else if Removes(s, l) {
      RemovalKeepsSingleRoom(limits, s, l);
    } else {
      SetTaskKeepsSingleRoom(s, l.t, Next(limits, s, l).tasks[l.t]);
    }
  }

  lemma {:induction false} SingleRoomAlways(limits: Limits, states: seq<Sys>, labels: seq<Label>, i: nat)
    requires Run(limits, states, labels) && i <= |labels|
    ensures SingleRoom(states[i])
  {
    if i > 0 {
      SingleRoomAlways(limits, states, labels, i - 1);
      assert Transition(limits, states[i - 1], labels[i - 1], states[i]);
      SingleRoomStep(limits, states[i - 1], labels[i - 1]);
    }
  }

  /** A room is removed only when no operation holds a handle to it or its mutex. */
  lemma RemovalFindsNoOperation(limits: Limits, states: seq<Sys>, labels: seq<Label>, i: nat, t: TaskId)
    requires Run(limits, states, labels) && i < |labels| && Removes(states[i], labels[i])
    requires t in states[i].tasks && (HasHandle(states[i].tasks[t]) || HasMutex(states[i].tasks[t]))
    ensures states[i].tasks[t].room != states[i].registry[states[i].tasks[labels[i].t].draft]
  {
    assert Transition(limits, states[i], labels[i], states[i + 1]);
    UnsharedHasNoHandle(states[i], states[i].registry[states[i].tasks[labels[i].t].draft]);
  }

  /** Whatever an operation locks or changes is the room registered under its draft id, so two
      operations on one draft id never work on two rooms. */
  lemma HandlesAgree(limits: Limits, states: seq<Sys>, labels: seq<Label>, i: nat, t: TaskId, t': TaskId)
    requires Run(limits, states, labels) && i <= |labels| && t in states[i].tasks && t' in states[i].tasks
    requires HasHandle(states[i].tasks[t]) && HasHandle(states[i].tasks[t'])
    ensures states[i].tasks[t].draft in states[i].registry
    ensures states[i].tasks[t].room == states[i].registry[states[i].tasks[t].draft]
    ensures states[i].tasks[t].draft == states[i].tasks[t'].draft <==>
      states[i].tasks[t].room == states[i].tasks[t'].room
  {
    SingleRoomAlways(limits, states, labels, i);
  }

  ghost predicate Retired(s: Sys, r: RoomId) {
    r in s.rooms && r !in s.registry.Values
  }

  /** Once removed, a room is never registered or changed again. */
  lemma {:induction false} RetiredRoomsAreFrozen(limits: Limits, states: seq<Sys>, labels: seq<Label>, i: nat, j: nat,
                                                 r: RoomId)
    requires Run(limits, states, labels) && i <= j <= |labels| && Retired(states[i], r)
    ensures Retired(states[j], r) && states[j].rooms[r] == states[i].rooms[r]
  {
    if i < j {
      RetiredRoomsAreFrozen(limits, states, labels, i, j - 1, r);
      SingleRoomAlways(limits, states, labels, j - 1);
      var s, l := states[j - 1], labels[j - 1];
      assert Transition(limits, s, l, states[j]);
      if l.Mutate? {
        assert Pinned(s, s.tasks[l.t]);
        assert s.tasks[l.t].room in s.registry.Values;
      }
    }
  }

  // ------------------------------------------------------------------
  // What is lost when a room is removed
  // ------------------------------------------------------------------

  // The users whose latest join, since the last removal, has no leave after it.
  function Roster(effects: seq<Effect>): set<UserId> {
    if effects == [] then {}
    else
      var before := Roster(effects[..|effects| - 1]);
      match effects[|effects| - 1]
      case Removed => {}
      case Applied(Join(user, _, _)) => before + {user}
      case Applied(Leave(user, _, _)) => before - {user}
      case Applied(_) => before
  }

  predicate Brings(e: Effect, user: UserId) {
    e.Applied? && e.op.Join? && e.op.user == user
  }

  predicate Takes(e: Effect, user: UserId) {
    e.Removed? || (e.op.Leave? && e.op.user == user)
  }

  ghost predicate Stays(effects: seq<Effect>, user: UserId) {
    exists k :: 0 <= k < |effects| && Brings(effects[k], user) && forall m :: k < m < |effects| ==>
      !Takes(effects[m], user)
  }

  lemma {:induction false} RosterMeaning(effects: seq<Effect>, user: UserId)
    ensures user in Roster(effects) <==> Stays(effects, user)
  {
    if effects != [] {
      var init, last := effects[..|effects| - 1], effects[|effects| - 1];
      RosterMeaning(init, user);
      if Stays(init, user) && !Takes(last, user) {
        var k :| 0 <= k < |init| && Brings(init[k], user) && forall m :: k < m < |init| ==> !Takes(init[m], user);
        assert Brings(effects[k], user);
        assert Stays(effects, user);
      }
      if Brings(last, user) {
        assert Stays(effects, user);
      }
      if Stays(effects, user) && !Brings(last, user) {
        var k :| 0 <= k < |effects| && Brings(effects[k], user) && forall m :: k < m < |effects| ==>
          !Takes(effects[m], user);
        assert Brings(init[k], user);
        assert !Takes(last, user);
      }
    }
  }

  predicate SawEmpty(task: Task) {
    task.Vacating? || (task.Unlocked? && task.empty)
  }

  // A leaver that saw its room empty accounts for every member the draft has gained since.
  ghost predicate Accounted(s: Sys, task: Task)
    requires SawEmpty(task)
  {
    && task.mark <= |TrailOf(s, task.draft)|
    && Roster(TrailOf(s, task.draft)[task.mark..]) == RoomOf(s, task.draft).members.Keys
  }

  ghost predicate AllAccounted(s: Sys) {
    forall t :: t in s.tasks && SawEmpty(s.tasks[t]) ==> Accounted(s, s.tasks[t])
  }

  lemma QuietStep(limits: Limits, s: Sys, l: Label, d: DraftId)
    requires SingleRoom(s) && Allowed(s, l) && !l.Mutate? && !Removes(s, l)
    ensures RoomOf(Next(limits, s, l), d) == RoomOf(s, d) && TrailOf(Next(limits, s, l), d) == TrailOf(s, d)
  {
    if l.Create? {
      QuietCreate(limits, s, l, d);
    }
  }

  lemma QuietCreate(limits: Limits, s: Sys, l: Label, d: DraftId)
    requires SingleRoom(s) && Allowed(s, l) && l.Create?
    ensures RoomOf(Next(limits, s, l), d) == RoomOf(s, d) && TrailOf(Next(limits, s, l), d) == TrailOf(s, d)
  {
  }

  // What one step does to the room of a draft.
  lemma RoomStep(limits: Limits, s: Sys, l: Label, d: DraftId)
    requires SingleRoom(s) && Allowed(s, l)
    ensures RoomOf(Next(limits, s, l), d) ==
      if Mutates(s, l, d) then Step(limits, RoomOf(s, d), l.op)
      else if Removes(s, l) && s.tasks[l.t].draft == d then EMPTY_ROOM
      else RoomOf(s, d)
    ensures Mutates(s, l, d) ==> Enabled(RoomOf(s, d), l.op)
  {
    if l.Mutate? {
      assert Pinned(s, s.tasks[l.t]);
    } else if !Removes(s, l) {
      QuietStep(limits, s, l, d);
    }
  }

  lemma RosterStep(limits: Limits, r: RoomState, effects: seq<Effect>, op: RoomOp)
    requires Roster(effects) == r.members.Keys
    ensures Roster(effects + [Applied(op)]) == Step(limits, r, op).members.Keys
  {
    assert (effects + [Applied(op)])[..|effects|] == effects;
  }

  // What a mutation adds to the trail of its draft.
  lemma TrailStep(limits: Limits, s: Sys, l: Label, d: DraftId)
    requires Allowed(s, l) && l.Mutate?
    ensures TrailOf(Next(limits, s, l), d) == TrailOf(s, d) + if Mutates(s, l, d) then [Applied(l.op)] else []
  {
  }

  lemma AccountedMutate(limits: Limits, s: Sys, l: Label, task: Task)
    requires SingleRoom(s) && Allowed(s, l) && l.Mutate? && SawEmpty(task) && Accounted(s, task)
    ensures Accounted(Next(limits, s, l), task)
  {
    var s', d := Next(limits, s, l), task.draft;
    TrailStep(limits, s, l, d);
    RoomStep(limits, s, l, d);
    if Mutates(s, l, d) {
      SuffixGrows(TrailOf(s, d), Applied(l.op), task.mark);
      RosterStep(limits, RoomOf(s, d), TrailOf(s, d)[task.mark..], l.op);
    }
  }

  lemma SuffixGrows(effects: seq<Effect>, e: Effect, mark: nat)
    requires mark <= |effects|
    ensures (effects + [e])[mark..] == effects[mark..] + [e]
  {
  }

  lemma AccountedRemoval(limits: Limits, s: Sys, l: Label, task: Task)
    requires SingleRoom(s) && Allowed(s, l) && Removes(s, l) && SawEmpty(task) && Accounted(s, task)
    ensures Accounted(Next(limits, s, l), task)
  {
    var s', d := Next(limits, s, l), s.tasks[l.t].draft;
    if task.draft == d {
      var since := TrailOf(s', d)[task.mark..];
      assert since[|since| - 1] == Removed;
    }
  }

  lemma AccountedOwnLeave(limits: Limits, s: Sys, l: Label)
    requires SingleRoom(s) && Allowed(s, l) && l.Mutate? && SawEmpty(Next(limits, s, l).tasks[l.t])
    ensures Accounted(Next(limits, s, l), Next(limits, s, l).tasks[l.t])
  {
    var s' := Next(limits, s, l);
    assert Pinned(s, s.tasks[l.t]);
    assert TrailOf(s', s.tasks[l.t].draft)[s'.tasks[l.t].mark..] == [];
  }

  lemma AllAccountedStep(limits: Limits, s: Sys, l: Label)
    requires SingleRoom(s) && AllAccounted(s) && Allowed(s, l)
    ensures AllAccounted(Next(limits, s, l))
  {
    var s' := Next(limits, s, l);
    forall t | t in s'.tasks && SawEmpty(s'.tasks[t]) ensures Accounted(s', s'.tasks[t]) {
      var task := s'.tasks[t];
      if l.Mutate? && t == l.t {
        AccountedOwnLeave(limits, s, l);
      } else if l.Mutate? {
        AccountedMutate(limits, s, l, task);
      } else if Removes(s, l) {
        AccountedRemoval(limits, s, l, task);
      } else {
        QuietStep(limits, s, l, task.draft);
        assert Accounted(s, if t == l.t then s.tasks[t] else task);
      }
    }
  }

  lemma {:induction false} AllAccountedAlways(limits: Limits, states: seq<Sys>, labels: seq<Label>, i: nat)
    requires Run(limits, states, labels) && i <= |labels|
    ensures AllAccounted(states[i])
  {
    if i > 0 {
      AllAccountedAlways(limits, states, labels, i - 1);
      SingleRoomAlways(limits, states, labels, i - 1);
      assert Transition(limits, states[i - 1], labels[i - 1], states[i]);
      AllAccountedStep(limits, states[i - 1], labels[i - 1]);
    }
  }

  // What happened to the leaver's draft between its unlock and its registry write.
  function Since(s: Sys, t: TaskId): seq<Effect>
    requires t in s.tasks && SawEmpty(s.tasks[t]) && s.tasks[t].mark <= |TrailOf(s, s.tasks[t].draft)|
  {
    TrailOf(s, s.tasks[t].draft)[s.tasks[t].mark..]
  }

  /** A removed room still holds exactly the users who joined after the leaver unlocked it and
      have not left again; it is empty, and then without locks, iff there are none. */
  lemma RemovalLosesExactlyRejoiners(limits: Limits, states: seq<Sys>, labels: seq<Label>, i: nat)
    requires Run(limits, states, labels) && i < |labels| && Removes(states[i], labels[i])
    ensures var s, t := states[i], labels[i].t;
      var d := s.tasks[t].draft;
      && s.tasks[t].mark <= |TrailOf(s, d)|
      && (forall u :: u in RoomOf(s, d).members <==> Stays(Since(s, t), u))
      && (RoomOf(s, d).members == map[] <==> !exists u :: Stays(Since(s, t), u))
      && (RoomOf(s, d).members == map[] ==> RoomOf(s, d).locks == map[])
      && RoomOf(states[i + 1], d) == EMPTY_ROOM
  {
    assert Transition(limits, states[i], labels[i], states[i + 1]);
    AllAccountedAlways(limits, states, labels, i);
    HoldersJoinedAlways(limits, states, labels, i);
    var s, t := states[i], labels[i].t;
    assert Accounted(s, s.tasks[t]);
    forall u ensures u in RoomOf(s, s.tasks[t].draft).members <==> Stays(Since(s, t), u) {
      RosterMeaning(Since(s, t), u);
    }
    if u :| u in RoomOf(s, s.tasks[t].draft).members {
      assert Stays(Since(s, t), u);
    }
  }

  lemma {:induction false} HoldersJoinedAlways(limits: Limits, states: seq<Sys>, labels: seq<Label>, i: nat)
    requires Run(limits, states, labels) && i <= |labels|
    ensures forall r :: r in states[i].rooms ==> HoldersJoined(states[i].rooms[r])
  {
    if i > 0 {
      HoldersJoinedAlways(limits, states, labels, i - 1);
      assert Transition(limits, states[i - 1], labels[i - 1], states[i]);
    }
  }

  // ------------------------------------------------------------------
  // Leases and replicas at this granularity
  // ------------------------------------------------------------------

  // Clock readings are taken under the room's mutex, so those of one draft's operations follow the
  // order of its mutations, across successive rooms. Readings on two drafts may come in any order.
  ghost predicate Clocked(states: seq<Sys>, labels: seq<Label>, d: DraftId)
    requires |states| == |labels| + 1
  {
    forall i, j :: 0 <= i < j < |labels| && Mutates(states[i], labels[i], d) && Mutates(states[j], labels[j], d) ==>
      labels[i].op.now <= labels[j].op.First()
  }

  ghost predicate GrantedAt(limits: Limits, s: Sys, l: Label, d: DraftId, user: UserId, entity: EntityId,
                            deadline: Time) {
    Mutates(s, l, d) && Grants(limits, RoomOf(s, d), Act(l.op), user, entity, deadline)
  }

  ghost predicate GivenUpBetween(states: seq<Sys>, labels: seq<Label>, i: nat, j: nat, d: DraftId, user: UserId,
                                 entity: EntityId)
    requires |states| == |labels| + 1 && j <= |labels|
  {
    exists k :: i < k < j && Mutates(states[k], labels[k], d) && Relinquishes(Act(labels[k].op), user, entity)
  }

  // A removal of the room of `d` that takes `user` with it: one who joined after the leaver had
  // unlocked the room, and stayed.
  ghost predicate LosesRejoiner(s: Sys, l: Label, d: DraftId, user: UserId) {
    && Removes(s, l) && s.tasks[l.t].draft == d && s.tasks[l.t].mark <= |TrailOf(s, d)|
    && Stays(Since(s, l.t), user)
  }

  ghost predicate LostBetween(states: seq<Sys>, labels: seq<Label>, i: nat, j: nat, d: DraftId, user: UserId)
    requires |states| == |labels| + 1 && j <= |labels|
  {
    exists k :: i < k < j && LosesRejoiner(states[k], labels[k], d, user)
  }

  lemma LossIsOfMember(limits: Limits, states: seq<Sys>, labels: seq<Label>, k: nat, d: DraftId, user: UserId)
    requires Run(limits, states, labels) && k < |labels| && Removes(states[k], labels[k])
    requires states[k].tasks[labels[k].t].draft == d
    ensures LosesRejoiner(states[k], labels[k], d, user) <==> user in RoomOf(states[k], d).members
  {
    RemovalLosesExactlyRejoiners(limits, states, labels, k);
  }

  lemma {:induction false} LeasesWithinAlways(limits: Limits, states: seq<Sys>, labels: seq<Label>, i: nat, d: DraftId,
                                              t: Time)
    requires Run(limits, states, labels) && i <= |labels|
    requires forall k :: 0 <= k < i && Mutates(states[k], labels[k], d) ==> labels[k].op.now <= t
    ensures LeasesWithin(limits, RoomOf(states[i], d), t)
  {
    if i > 0 {
      var s, l := states[i - 1], labels[i - 1];
      LeasesWithinAlways(limits, states, labels, i - 1, d, t);
      SingleRoomAlways(limits, states, labels, i - 1);
      assert Transition(limits, s, l, states[i]);
      RoomStep(limits, s, l, d);
      if Mutates(s, l, d) {
        LeasesWithinStep(limits, RoomOf(s, d), l.op, t);
      }
    }
  }

  // One step keeps a lease, unless its holder gives it up or is lost with the room, or the clock
  // has reached the deadline.
  lemma LeaseStep(limits: Limits, states: seq<Sys>, labels: seq<Label>, k: nat, d: DraftId,
                  user: UserId, entity: EntityId, deadline: Time)
    requires Run(limits, states, labels) && Clocked(states, labels, d) && k < |labels|
    requires Holds(RoomOf(states[k], d), user, entity, deadline)
    requires Mutates(states[k], labels[k], d) ==>
      !Relinquishes(Act(labels[k].op), user, entity) && labels[k].op.now < deadline
    requires !LosesRejoiner(states[k], labels[k], d, user)
    ensures Holds(RoomOf(states[k + 1], d), user, entity, deadline)
  {
    var s, l := states[k], labels[k];
    SingleRoomAlways(limits, states, labels, k);
    assert Transition(limits, s, l, states[k + 1]);
    RoomStep(limits, s, l, d);
    if Mutates(s, l, d) {
      LeasesWithinAlways(limits, states, labels, k, d, l.op.First());
      HoldsStep(limits, RoomOf(s, d), l.op, user, entity, deadline);
    } else if Removes(s, l) && s.tasks[l.t].draft == d {
      LossIsOfMember(limits, states, labels, k, d, user);
      HoldersJoinedAlways(limits, states, labels, k);
    }
  }

  // The grant at i is unexpired at every reading before j and has not been given up.
  ghost predicate LiveUntil(limits: Limits, states: seq<Sys>, labels: seq<Label>, i: nat, j: nat, d: DraftId,
                            user: UserId, entity: EntityId, deadline: Time)
    requires |states| == |labels| + 1 && j <= |labels|
  {
    && i < j && GrantedAt(limits, states[i], labels[i], d, user, entity, deadline)
    && !GivenUpBetween(states, labels, i, j, d, user, entity)
    && forall k :: i <= k < j && Mutates(states[k], labels[k], d) ==> labels[k].op.now < deadline
  }

  lemma {:induction false} LeaseKept(limits: Limits, states: seq<Sys>, labels: seq<Label>, i: nat, j: nat, d: DraftId,
                                     user: UserId, entity: EntityId, deadline: Time)
    requires Run(limits, states, labels) && Clocked(states, labels, d) && j <= |labels|
    requires LiveUntil(limits, states, labels, i, j, d, user, entity, deadline)
    requires !LostBetween(states, labels, i, j, d, user)
    ensures Holds(RoomOf(states[j], d), user, entity, deadline)
  {
    var k := j - 1;
    SingleRoomAlways(limits, states, labels, k);
    assert Transition(limits, states[k], labels[k], states[j]);
    if k == i {
      RoomStep(limits, states[i], labels[i], d);
    } else {
      LeaseKept(limits, states, labels, i, k, d, user, entity, deadline);
      LeaseStep(limits, states, labels, k, d, user, entity, deadline);
    }
  }

  /** Lease safety under every interleaving: someone else is granted a leased entity only after
      the deadline, after its holder gave it up, or after a removal in between that lost the holder,
      who had joined between the leaver's unlock and its registry write. */
  lemma LeaseSafetyInterleaved(limits: Limits, states: seq<Sys>, labels: seq<Label>, i: nat, j: nat, d: DraftId,
                               user: UserId, other: UserId, entity: EntityId, deadline: Time, later: Time)
    requires Run(limits, states, labels) && Clocked(states, labels, d) && i < j < |labels| && user != other
    requires GrantedAt(limits, states[i], labels[i], d, user, entity, deadline)
    requires GrantedAt(limits, states[j], labels[j], d, other, entity, later)
    ensures labels[j].op.now >= deadline || GivenUpBetween(states, labels, i, j, d, user, entity)
      || LostBetween(states, labels, i, j, d, user)
  {
    assert Transition(limits, states[j], labels[j], states[j + 1]);
    if labels[j].op.now < deadline && !GivenUpBetween(states, labels, i, j, d, user, entity) {
      SingleRoomAlways(limits, states, labels, j);
      RoomStep(limits, states[j], labels[j], d);
      forall k | i <= k < j && Mutates(states[k], labels[k], d) ensures labels[k].op.now < deadline {
        assert labels[k].op.now <= labels[j].op.First();
      }
      if !LostBetween(states, labels, i, j, d, user) {
        LeaseKept(limits, states, labels, i, j, d, user, entity, deadline);
      }
    }
  }

  // A grant at i that by j its holder has neither given up nor lost with the room.
  ghost predicate LeasedUntil(limits: Limits, states: seq<Sys>, labels: seq<Label>, i: nat, j: nat, d: DraftId,
                              holder: UserId, entity: EntityId, deadline: Time)
    requires |states| == |labels| + 1 && j <= |labels|
  {
    && i < j && GrantedAt(limits, states[i], labels[i], d, holder, entity, deadline)
    && !GivenUpBetween(states, labels, i, j, d, holder, entity) && !LostBetween(states, labels, i, j, d, holder)
  }

  // A lock the room has after a step was granted by it, or was there before it and neither given up
  // nor lost by it.
  lemma LockStep(limits: Limits, states: seq<Sys>, labels: seq<Label>, k: nat, d: DraftId, entity: EntityId)
    requires Run(limits, states, labels) && k < |labels| && entity in RoomOf(states[k + 1], d).locks
    ensures var s, l, lock := states[k], labels[k], RoomOf(states[k + 1], d).locks[entity];
      GrantedAt(limits, s, l, d, lock.heldBy, entity, lock.expiresAt) ||
      (entity in RoomOf(s, d).locks && RoomOf(s, d).locks[entity] == lock && !LosesRejoiner(s, l, d, lock.heldBy) &&
       !(Mutates(s, l, d) && Relinquishes(Act(l.op), lock.heldBy, entity)))
  {
    SingleRoomAlways(limits, states, labels, k);
    HoldersJoinedAlways(limits, states, labels, k);
    assert Transition(limits, states[k], labels[k], states[k + 1]);
    RoomStep(limits, states[k], labels[k], d);
  }

  lemma LeasedLonger(limits: Limits, states: seq<Sys>, labels: seq<Label>, i: nat, k: nat, d: DraftId,
                     holder: UserId, entity: EntityId, deadline: Time)
    requires |states| == |labels| + 1 && k < |labels|
    requires LeasedUntil(limits, states, labels, i, k, d, holder, entity, deadline)
    requires !LosesRejoiner(states[k], labels[k], d, holder)
    requires !(Mutates(states[k], labels[k], d) && Relinquishes(Act(labels[k].op), holder, entity))
    ensures LeasedUntil(limits, states, labels, i, k + 1, d, holder, entity, deadline)
  {
  }

  // A lock in the room was granted, with its present deadline, by some earlier step.
  lemma {:induction false} LockOrigin(limits: Limits, states: seq<Sys>, labels: seq<Label>, j: nat, d: DraftId,
                                      entity: EntityId)
    returns (i: nat)
    requires Run(limits, states, labels) && j <= |labels| && entity in RoomOf(states[j], d).locks
    ensures var lock := RoomOf(states[j], d).locks[entity];
      LeasedUntil(limits, states, labels, i, j, d, lock.heldBy, entity, lock.expiresAt)
  {
    var k := j - 1;
    var lock := RoomOf(states[j], d).locks[entity];
    LockStep(limits, states, labels, k, d, entity);
    if GrantedAt(limits, states[k], labels[k], d, lock.heldBy, entity, lock.expiresAt) {
      i := k;
    } else {
      i := LockOrigin(limits, states, labels, k, d, entity);
      LeasedLonger(limits, states, labels, i, k, d, lock.heldBy, entity, lock.expiresAt);
    }
  }

  /** Under every interleaving too a member is refused an entity in favour of `holder` iff `holder`,
      another user, was granted it until later than now and has neither given it up nor been lost. */
  lemma DeniedIffLeasedInterleaved(limits: Limits, states: seq<Sys>, labels: seq<Label>, j: nat, d: DraftId,
                                   user: UserId, holder: UserId, entity: EntityId)
    requires Run(limits, states, labels) && Clocked(states, labels, d)
    requires j < |labels| && Mutates(states[j], labels[j], d)
    requires user in RoomOf(states[j], d).members
    ensures AnswerLock(limits, RoomOf(states[j], d), user, entity, labels[j].op.now) == Denied(holder) <==>
      (holder != user && exists i: nat, deadline ::
         LeasedUntil(limits, states, labels, i, j, d, holder, entity, deadline) && deadline > labels[j].op.now)
  {
    var now := labels[j].op.now;
    if AnswerLock(limits, RoomOf(states[j], d), user, entity, now) == Denied(holder) {
      var i := LockOrigin(limits, states, labels, j, d, entity);
    }
    if i: nat, deadline :| LeasedUntil(limits, states, labels, i, j, d, holder, entity, deadline) && deadline > now {
      assert Transition(limits, states[j], labels[j], states[j + 1]);
      SingleRoomAlways(limits, states, labels, j);
      RoomStep(limits, states[j], labels[j], d);
      forall k | i <= k < j && Mutates(states[k], labels[k], d) ensures labels[k].op.now < deadline {
        assert labels[k].op.now <= labels[j].op.First();
      }
      LeaseKept(limits, states, labels, i, j, d, holder, entity, deadline);
    }
  }

  // The life of one room object, whether or not it is still registered.
  function ObjectAt(s: Sys, r: RoomId): RoomState {
    if r in s.rooms then s.rooms[r] else EMPTY_ROOM
  }

  predicate MutatesObject(s: Sys, l: Label, r: RoomId) {
    l.Mutate? && l.t in s.tasks && s.tasks[l.t].Locked? && s.tasks[l.t].room == r
  }

  function ObjectStates(states: seq<Sys>, r: RoomId): seq<RoomState> {
    seq(|states|, i requires 0 <= i < |states| => ObjectAt(states[i], r))
  }

  function ObjectEvents(states: seq<Sys>, labels: seq<Label>, r: RoomId): seq<Event>
    requires |states| == |labels| + 1
  {
    seq(|labels|, i requires 0 <= i < |labels| => if MutatesObject(states[i], labels[i], r) then Act(labels[i].op)
      else Idle)
  }

  // The same order for one room object.
  ghost predicate ObjectClocked(states: seq<Sys>, labels: seq<Label>, r: RoomId)
    requires |states| == |labels| + 1
  {
    forall i, j :: 0 <= i < j < |labels| ==> MutatesObject(states[i], labels[i], r) ==>
      MutatesObject(states[j], labels[j], r) ==> labels[i].op.now <= labels[j].op.First()
  }

  /** Replica convergence under every interleaving: a receiver follows the room object it
      subscribed to, removed or not. */
  lemma ReplicaFollowsObject(limits: Limits, states: seq<Sys>, labels: seq<Label>, i: nat, j: nat, r: RoomId)
    requires Run(limits, states, labels) && ObjectClocked(states, labels, r) && i < j <= |labels|
    requires MutatesObject(states[i], labels[i], r) && labels[i].op.Join?
    ensures var start := Joined(ObjectAt(states[i + 1], r), |ObjectAt(states[i], r).log|);
      && start.position <= |ObjectAt(states[j], r).log|
      && Tracks(Fold(View(start.users, start.locks), ObjectAt(states[j], r).log[start.position..]),
        ObjectAt(states[j], r))
  {
    var rs, es := ObjectStates(states, r), ObjectEvents(states, labels, r);
    forall k | 0 <= k < |labels| ensures Kept(limits, rs[k], es[k], rs[k + 1]) {
      assert Transition(limits, states[k], labels[k], states[k + 1]);
    }
    ReplicaConverges(limits, rs, es, i, j);
  }

  // ------------------------------------------------------------------
  // The race the strong count does not see
  // ------------------------------------------------------------------

  lemma Extend(limits: Limits, states: seq<Sys>, labels: seq<Label>, l: Label)
    returns (states': seq<Sys>, labels': seq<Label>)
    requires Run(limits, states, labels) && Allowed(states[|labels|], l)
    ensures states' == states + [Next(limits, states[|labels|], l)] && labels' == labels + [l]
    ensures Run(limits, states', labels')
  {
    states', labels' := states + [Next(limits, states[|labels|], l)], labels + [l];
    forall i | 0 <= i < |labels'| ensures Transition(limits, states'[i], labels'[i], states'[i + 1]) {
      assert i < |labels| ==> Transition(limits, states[i], labels[i], states[i + 1]);
    }
  }

  // Nobody is in the way of a new operation on draft `d`.
  ghost predicate Quiet(s: Sys, d: DraftId) {
    WriteLockFree(s) && (d in s.registry ==> MutexFree(s, s.registry[d]))
  }

  lemma HandleIsPinned(limits: Limits, states: seq<Sys>, labels: seq<Label>, t: TaskId)
    requires Run(limits, states, labels) && t in states[|labels|].tasks && HasHandle(states[|labels|].tasks[t])
    ensures Pinned(states[|labels|], states[|labels|].tasks[t]) &&
      states[|labels|].tasks[t].room in states[|labels|].rooms
  {
    SingleRoomAlways(limits, states, labels, |labels|);
  }

  lemma UnusedIsUnlocked(limits: Limits, states: seq<Sys>, labels: seq<Label>, d: DraftId, id: RoomId)
    requires Run(limits, states, labels) && id !in states[|labels|].rooms
    ensures MutexFree(states[|labels|], id) &&
      (d in states[|labels|].registry ==> states[|labels|].registry[d] in states[|labels|].rooms)
  {
    SingleRoomAlways(limits, states, labels, |labels|);
  }

  // The run goes on with operations on draft `d` only, all reading the clock at `t`.
  ghost predicate GoesOn(states: seq<Sys>, labels: seq<Label>, states': seq<Sys>, labels': seq<Label>, d: DraftId,
                         t: Time)
    requires |states'| == |labels'| + 1
  {
    && states <= states' && labels <= labels'
    && forall k :: |labels| <= k < |labels'| ==> labels'[k].Mutate? ==>
      Mutates(states'[k], labels'[k], d) && labels'[k].op.now == labels'[k].op.First() == t
  }

  // A join or lock request finds its room, or registers a new one as `id`.
  lemma Arrive(limits: Limits, states: seq<Sys>, labels: seq<Label>, t: TaskId, d: DraftId, kind: Kind, id: RoomId)
    returns (states': seq<Sys>, labels': seq<Label>)
    requires Run(limits, states, labels) && (kind.KJoin? || kind.KAcquire?)
    requires var s := states[|labels|]; Quiet(s, d) && t !in s.tasks && id !in s.rooms
    ensures Run(limits, states', labels') && states <= states' && labels <= labels'
    ensures forall k :: |labels| <= k < |labels'| ==> !labels'[k].Mutate?
    ensures var s, s' := states[|labels|], states'[|labels'|];
      && d in s'.registry && s'.registry.Keys == s.registry.Keys + {d} && s'.sweeps == s.sweeps
      && s'.tasks == s.tasks[t := Waiting(d, kind, s'.registry[d])]
      && s'.rooms.Keys <= s.rooms.Keys + {id}
      && RoomOf(s', d) == RoomOf(s, d) && Quiet(s', d)
  {
    UnusedIsUnlocked(limits, states, labels, d, id);
    states', labels' := Extend(limits, states, labels, Spawn(t, d, kind));
    states', labels' := Extend(limits, states', labels', Look(t));
    if d !in states[|labels|].registry {
      states', labels' := Extend(limits, states', labels', Create(t, id));
    }
  }

  ghost predicate Ready(s: Sys, t: TaskId, op: RoomOp) {
    && t in s.tasks && s.tasks[t].Waiting? && Performs(s.tasks[t].kind, op)
    && Quiet(s, s.tasks[t].draft) && Enabled(RoomOf(s, s.tasks[t].draft), op)
  }

  // An operation with a handle locks, changes and leaves its room.
  lemma Perform(limits: Limits, states: seq<Sys>, labels: seq<Label>, t: TaskId, op: RoomOp)
    returns (states': seq<Sys>, labels': seq<Label>, m: nat)
    requires Run(limits, states, labels)
    requires Ready(states[|labels|], t, op)
    ensures Run(limits, states', labels') && states <= states' && labels <= labels'
    ensures |labels| <= m < |labels'| && labels'[m] == Mutate(t, op)
    ensures forall k :: |labels| <= k < |labels'| && k != m ==> !labels'[k].Mutate?
    ensures var s, s' := states[|labels|], states'[|labels'|];
      var d := s.tasks[t].draft;
      var r' := Step(limits, RoomOf(s, d), op);
      && Mutates(states'[m], labels'[m], d) && RoomOf(states'[m], d) == RoomOf(s, d)
      && RoomOf(states'[m + 1], d) == r' && states'[m].sweeps == s'.sweeps == s.sweeps
      && s'.tasks == s.tasks[t := if op.Leave? && r'.members == map[] then Vacating(d, |TrailOf(s, d)| + 1) else Done]
      && s'.registry == s.registry && s'.rooms.Keys == s.rooms.Keys && RoomOf(s', d) == r'
  {
    HandleIsPinned(limits, states, labels, t);
    states', labels' := Extend(limits, states, labels, Label.Lock(t));
    m := |labels'|;
    states', labels' := Extend(limits, states', labels', Mutate(t, op));
    states', labels' := Extend(limits, states', labels', DropHandle(t));
  }

  // The clock has not been read past `t` on draft `d`.
  ghost predicate ReadBy(states: seq<Sys>, labels: seq<Label>, d: DraftId, t: Time)
    requires |states| == |labels| + 1
  {
    && Clocked(states, labels, d)
    && forall k :: 0 <= k < |labels| && Mutates(states[k], labels[k], d) ==> labels[k].op.now <= t
  }

  // Going on at `t` then keeps the clock in order, on every draft.
  lemma GoesOnInOrder(states: seq<Sys>, labels: seq<Label>, states': seq<Sys>, labels': seq<Label>, d: DraftId, t: Time)
    requires |states| == |labels| + 1 && |states'| == |labels'| + 1
    requires ReadBy(states, labels, d, t) && GoesOn(states, labels, states', labels', d, t)
    ensures ReadBy(states', labels', d, t)
    ensures forall e :: Clocked(states, labels, e) ==> Clocked(states', labels', e)
  {
    assert forall k :: 0 <= k < |labels| ==> labels'[k] == labels[k] && states'[k] == states[k];
  }

  lemma GoesOnLonger(states: seq<Sys>, labels: seq<Label>, states1: seq<Sys>, labels1: seq<Label>,
                     states2: seq<Sys>, labels2: seq<Label>, d: DraftId, t: Time)
    requires |states1| == |labels1| + 1 && |states2| == |labels2| + 1
    requires GoesOn(states, labels, states1, labels1, d, t) && GoesOn(states1, labels1, states2, labels2, d, t)
    ensures GoesOn(states, labels, states2, labels2, d, t)
  {
    assert forall k :: 0 <= k < |labels1| ==> labels2[k] == labels1[k] && states2[k] == states1[k];
  }

  // Task and room ids from `n` on are unused.
  ghost predicate UnusedFrom(s: Sys, n: nat) {
    (forall t :: t in s.tasks ==> t < n) && forall r :: r in s.rooms ==> r < n
  }

  lemma {:induction false} Above(ids: set<nat>) returns (n: nat)
    ensures forall x :: x in ids ==> x < n
    decreases |ids|
  {
    if ids == {} {
      n := 0;
    } else {
      var x :| x in ids;
      var m := Above(ids - {x});
      n := Max(m, x + 1);
      assert forall y :: y in ids ==> y == x || y in ids - {x};
    }
  }

  // A join or lock request that runs at time `t` from start to finish without interleaving.
  lemma Alone(limits: Limits, states: seq<Sys>, labels: seq<Label>, d: DraftId, op: RoomOp, n: nat, t: Time)
    returns (states': seq<Sys>, labels': seq<Label>, m: nat)
    requires Run(limits, states, labels) && op.now == t && op.First() == t && (op.Join? || op.Acquire?)
    requires Quiet(states[|labels|], d) && UnusedFrom(states[|labels|], n)
    ensures Run(limits, states', labels') && GoesOn(states, labels, states', labels', d, t)
    ensures |labels| <= m < |labels'| && labels'[m] == Mutate(n, op)
    ensures forall k :: |labels| <= k < |labels'| && k != m ==> !labels'[k].Mutate?
    ensures var s, s' := states[|labels|], states'[|labels'|];
      && Mutates(states'[m], labels'[m], d) && RoomOf(states'[m], d) == RoomOf(s, d) && s'.sweeps == s.sweeps
      && s'.tasks == s.tasks[n := Done] && s'.registry.Keys == s.registry.Keys + {d}
      && RoomOf(s', d) == Step(limits, RoomOf(s, d), op) && UnusedFrom(s', n + 1) && Quiet(s', d)
  {
    var states1, labels1 := Arrive(limits, states, labels, n, d, KindOf(op), n);
    assert Ready(states1[|labels1|], n, op);
    states', labels', m := Perform(limits, states1, labels1, n, op);
    OneMutation(states, labels, states1, labels1, states', labels', m, d, t);
  }

  // A run that goes on without mutations and then with one goes on at the time of that one.
  lemma OneMutation(states: seq<Sys>, labels: seq<Label>, states1: seq<Sys>, labels1: seq<Label>,
                    states': seq<Sys>, labels': seq<Label>, m: nat, d: DraftId, t: Time)
    requires states <= states1 <= states' && labels <= labels1 <= labels' && |states'| == |labels'| + 1
    requires forall k :: |labels| <= k < |labels1| ==> !labels1[k].Mutate?
    requires |labels1| <= m < |labels'| && Mutates(states'[m], labels'[m], d)
    requires labels'[m].op.now == t && labels'[m].op.First() == t
    requires forall k :: |labels1| <= k < |labels'| && k != m ==> !labels'[k].Mutate?
    ensures GoesOn(states, labels, states', labels', d, t)
    ensures forall k :: |labels| <= k < |labels'| && k != m ==> !labels'[k].Mutate?
  {
    assert forall k :: |labels| <= k < |labels1| ==> labels'[k] == labels1[k];
  }

  // Any operation finds a room that is registered.
  lemma Reach(limits: Limits, states: seq<Sys>, labels: seq<Label>, t: TaskId, d: DraftId, kind: Kind)
    returns (states': seq<Sys>, labels': seq<Label>)
    requires Run(limits, states, labels) && !kind.KEvict?
    requires var s := states[|labels|]; Quiet(s, d) && t !in s.tasks && d in s.registry
    ensures Run(limits, states', labels') && states <= states' && labels <= labels'
    ensures forall k :: |labels| <= k < |labels'| ==> !labels'[k].Mutate?
    ensures var s := states[|labels|];
      states'[|labels'|] == s.(tasks := s.tasks[t := Waiting(d, kind, s.registry[d])]) && Quiet(states'[|labels'|], d)
  {
    states', labels' := Extend(limits, states, labels, Spawn(t, d, kind));
    states', labels' := Extend(limits, states', labels', Look(t));
  }

  // The last member, without locks, leaves, up to the point where it has dropped its handle.
  lemma LeaveAlone(limits: Limits, states: seq<Sys>, labels: seq<Label>, d: DraftId, user: UserId, n: nat, t: Time)
    returns (states': seq<Sys>, labels': seq<Label>)
    requires Run(limits, states, labels)
    requires Quiet(states[|labels|], d) && UnusedFrom(states[|labels|], n) && d in states[|labels|].registry
    requires RoomOf(states[|labels|], d).locks == map[] && RoomOf(states[|labels|], d).members.Keys == {user}
    ensures Run(limits, states', labels') && GoesOn(states, labels, states', labels', d, t)
    ensures var s, s' := states[|labels|], states'[|labels'|];
      && s'.tasks == s.tasks[n := Vacating(d, |TrailOf(s, d)| + 1)] && s'.registry == s.registry
      && RoomOf(s', d).members == map[] && RoomOf(s', d).locks == map[] && Quiet(s', d) && UnusedFrom(s', n + 1)
  {
    var states1, labels1 := Reach(limits, states, labels, n, d, KLeave);
    var room, leave := RoomOf(states[|labels|], d), Leave(user, [], t);
    assert RoomOf(states1[|labels1|], d) == room;
    assert Ready(states1[|labels1|], n, leave);
    assert Step(limits, room, leave).members == map[] && Step(limits, room, leave).locks == map[];
    var m: nat;
    states', labels', m := Perform(limits, states1, labels1, n, leave);
    OneMutation(states, labels, states1, labels1, states', labels', m, d, t);
  }

  // Alice, the only member ever, has unlocked her room and dropped her handle.
  lemma AliceLeaves(limits: Limits, d: DraftId, t: Time) returns (states: seq<Sys>, labels: seq<Label>)
    ensures Run(limits, states, labels) && GoesOn([INITIAL], [], states, labels, d, t)
    ensures var s := states[|labels|];
      && Quiet(s, d) && UnusedFrom(s, 2) && s.registry.Keys == {d}
      && (exists mark :: s.tasks == map[0 := Done, 1 := Vacating(d, mark)])
      && RoomOf(s, d).members == map[] && RoomOf(s, d).locks == map[]
  {
    var states1, labels1, m := Alone(limits, [INITIAL], [], d, Join("alice", "Alice", t), 0, t);
    states, labels := LeaveAlone(limits, states1, labels1, d, "alice", 1, t);
    GoesOnLonger([INITIAL], [], states1, labels1, states, labels, d, t);
  }

  // A newcomer joins a room without locks and is granted `entity`.
  lemma JoinAndAcquire(limits: Limits, states: seq<Sys>, labels: seq<Label>, d: DraftId, user: UserId,
                       entity: EntityId, n: nat, t: Time)
    returns (states': seq<Sys>, labels': seq<Label>, m: nat)
    requires Run(limits, states, labels) && RoomOf(states[|labels|], d).locks == map[]
    requires Quiet(states[|labels|], d) && UnusedFrom(states[|labels|], n)
    ensures Run(limits, states', labels') && GoesOn(states, labels, states', labels', d, t)
    ensures |labels| <= m < |labels'| && labels'[m].Mutate? && labels'[m].op.now == t
    ensures GrantedAt(limits, states'[m], labels'[m], d, user, entity, t + ChronoMillis(limits.lockTtl))
    ensures forall k :: |labels| <= k < |labels'| && labels'[k].Mutate? ==>
      labels'[k].op.Join? || labels'[k].op.Acquire?
    ensures var s, s' := states[|labels|], states'[|labels'|];
      && UnusedFrom(s', n + 2) && Quiet(s', d) && s'.registry.Keys == s.registry.Keys + {d}
      && s'.tasks == s.tasks[n := Done][n + 1 := Done]
  {
    var states1, labels1, j := Alone(limits, states, labels, d, Join(user, user, t), n, t);
    states', labels', m := Alone(limits, states1, labels1, d, Acquire(user, entity, t, t), n + 1, t);
    assert forall k :: |labels| <= k < |labels1| ==> labels'[k] == labels1[k];
    GoesOnLonger(states, labels, states1, labels1, states', labels', d, t);
  }

  lemma Prefix(limits: Limits, states: seq<Sys>, labels: seq<Label>, n: nat)
    requires Run(limits, states, labels) && n <= |labels|
    ensures Run(limits, states[..n + 1], labels[..n])
  {
    forall i | 0 <= i < n ensures Transition(limits, states[..n + 1][i], labels[..n][i], states[..n + 1][i + 1]) {
      assert Transition(limits, states[i], labels[i], states[i + 1]);
    }
  }

  lemma ReadBeforeDeadline(limits: Limits, states: seq<Sys>, labels: seq<Label>, i: nat, k: nat, d: DraftId,
                           user: UserId, entity: EntityId, deadline: Time)
    requires Run(limits, states, labels) && Clocked(states, labels, d) && k < |labels| && !labels[k].Mutate?
    requires LiveUntil(limits, states, labels, i, k, d, user, entity, deadline)
    ensures ReadBy(states[..k + 2], labels[..k + 1], d, deadline - 1)
  {
    SingleRoomAlways(limits, states, labels, i);
    assert Transition(limits, states[i], labels[i], states[i + 1]);
    RoomStep(limits, states[i], labels[i], d);
    forall m | 0 <= m < i && Mutates(states[m], labels[m], d) ensures labels[m].op.now <= deadline - 1 {
      assert labels[m].op.now <= labels[i].op.First();
    }
  }

  /** And every such loss breaks lease safety. Whatever else is going on, a removal that takes the
      holder of a live lease leaves an empty room behind, and the run can continue with any other
      user joining and being granted the entity before the deadline. The clock stays in order on
      every draft. */
  lemma LossBreaksLease(limits: Limits, states: seq<Sys>, labels: seq<Label>, i: nat, k: nat, d: DraftId,
                        user: UserId, other: UserId, entity: EntityId, deadline: Time)
    returns (states': seq<Sys>, labels': seq<Label>, j: nat)
    requires Run(limits, states, labels) && Clocked(states, labels, d) && k < |labels|
    requires LiveUntil(limits, states, labels, i, k, d, user, entity, deadline)
    requires LosesRejoiner(states[k], labels[k], d, user)
    ensures RoomOf(states[k + 1], d) == EMPTY_ROOM
    ensures Run(limits, states', labels')
    ensures forall e :: Clocked(states[..k + 2], labels[..k + 1], e) ==> Clocked(states', labels', e)
    ensures states[..k + 2] <= states' && labels[..k + 1] <= labels' && k < j < |labels'|
    ensures labels'[j].Mutate? && labels'[j].op.now < deadline
    ensures GrantedAt(limits, states'[j], labels'[j], d, other, entity,
      labels'[j].op.now + ChronoMillis(limits.lockTtl))
    ensures !GivenUpBetween(states', labels', i, j, d, user, entity)
  {
    RemovalLeavesQuiet(limits, states, labels, k, d);
    ReadBeforeDeadline(limits, states, labels, i, k, d, user, entity, deadline);
    var before, steps := states[..k + 2], labels[..k + 1];
    Prefix(limits, states, labels, k + 1);
    assert before[|steps|] == states[k + 1];
    states', labels', j := Newcomer(limits, before, steps, d, other, entity, deadline - 1);
    GoesOnInOrder(before, steps, states', labels', d, deadline - 1);
    NotGivenUpSince(states, labels, states', labels', i, k, j, d, user, entity);
  }

  lemma RemovalLeavesQuiet(limits: Limits, states: seq<Sys>, labels: seq<Label>, k: nat, d: DraftId)
    requires Run(limits, states, labels) && k < |labels|
    requires Removes(states[k], labels[k]) && states[k].tasks[labels[k].t].draft == d
    ensures RoomOf(states[k + 1], d) == EMPTY_ROOM && Quiet(states[k + 1], d)
  {
    SingleRoomAlways(limits, states, labels, k);
    assert Transition(limits, states[k], labels[k], states[k + 1]);
    RoomStep(limits, states[k], labels[k], d);
  }

  lemma Newcomer(limits: Limits, states: seq<Sys>, labels: seq<Label>, d: DraftId, user: UserId, entity: EntityId,
                 t: Time)
    returns (states': seq<Sys>, labels': seq<Label>, m: nat)
    requires Run(limits, states, labels)
    requires Quiet(states[|labels|], d) && RoomOf(states[|labels|], d) == EMPTY_ROOM
    ensures Run(limits, states', labels') && GoesOn(states, labels, states', labels', d, t)
    ensures |labels| <= m < |labels'| && labels'[m].Mutate? && labels'[m].op.now == t
    ensures GrantedAt(limits, states'[m], labels'[m], d, user, entity, t + ChronoMillis(limits.lockTtl))
    ensures forall k :: |labels| <= k < |labels'| && labels'[k].Mutate? ==>
      labels'[k].op.Join? || labels'[k].op.Acquire?
  {
    var n := Above(states[|labels|].tasks.Keys + states[|labels|].rooms.Keys);
    states', labels', m := JoinAndAcquire(limits, states, labels, d, user, entity, n, t);
  }

  lemma NotGivenUpSince(states: seq<Sys>, labels: seq<Label>, states': seq<Sys>, labels': seq<Label>,
                        i: nat, k: nat, j: nat, d: DraftId, user: UserId, entity: EntityId)
    requires |states| == |labels| + 1 && |states'| == |labels'| + 1 && i < k < |labels| && k < j < |labels'|
    requires states[..k + 2] <= states' && labels[..k + 1] <= labels' && !labels[k].Mutate?
    requires forall m :: k < m < |labels'| && labels'[m].Mutate? ==> labels'[m].op.Join? || labels'[m].op.Acquire?
    requires !GivenUpBetween(states, labels, i, k, d, user, entity)
    ensures !GivenUpBetween(states', labels', i, j, d, user, entity)
  {
    forall m | i < m < j && Mutates(states'[m], labels'[m], d) ensures !Relinquishes(Act(labels'[m].op), user, entity) {
      if m <= k {
        assert states'[m] == states[..k + 2][m] && labels'[m] == labels[..k + 1][m];
      }
    }
  }

  // Bob has joined the room Alice left, holds a lease on `entity`, and is removed with the room.
  lemma BobIsLost(limits: Limits, d: DraftId, entity: EntityId, t: Time)
    returns (states: seq<Sys>, labels: seq<Label>, i: nat)
    ensures Run(limits, states, labels) && GoesOn([INITIAL], [], states, labels, d, t) && i < |labels|
    ensures GrantedAt(limits, states[i], labels[i], d, "bob", entity, t + ChronoMillis(limits.lockTtl))
    ensures !GivenUpBetween(states, labels, i, |labels|, d, "bob", entity)
    ensures Quiet(states[|labels|], d) && RoomOf(states[|labels|], d) == EMPTY_ROOM
  {
    var states0, labels0 := AliceLeaves(limits, d, t);
    var states1, labels1;
    states1, labels1, i := JoinAndAcquire(limits, states0, labels0, d, "bob", entity, 2, t);
    UnsharedHasNoHandle(states1[|labels1|], states1[|labels1|].registry[d]);
    states, labels := Extend(limits, states1, labels1, Vacate(1));
    RemovalLeavesQuiet(limits, states, labels, |labels1|, d);
    GoesOnLonger([INITIAL], [], states0, labels0, states1, labels1, d, t);
    forall m | i < m < |labels|
      ensures !(Mutates(states[m], labels[m], d) && Relinquishes(Act(labels[m].op), "bob", entity))
    {
      assert m < |labels1| ==> labels[m] == labels1[m];
    }
  }

  /** Such runs exist: the strong count is one although Bob's join has completed in between, the
      room is removed with Bob and his lease in it, and Carol is granted the same entity at once. */
  lemma RaceBreaksLeases(limits: Limits, d: DraftId, entity: EntityId, t: Time)
    returns (states: seq<Sys>, labels: seq<Label>, i: nat, j: nat)
    requires ChronoMillis(limits.lockTtl) > 0
    ensures Run(limits, states, labels) && i < j < |labels| && forall e :: Clocked(states, labels, e)
    ensures GrantedAt(limits, states[i], labels[i], d, "bob", entity, t + ChronoMillis(limits.lockTtl))
    ensures GrantedAt(limits, states[j], labels[j], d, "carol", entity, t + ChronoMillis(limits.lockTtl))
    ensures labels[j].op.now < t + ChronoMillis(limits.lockTtl) &&
      !GivenUpBetween(states, labels, i, j, d, "bob", entity)
  {
    var states1, labels1;
    states1, labels1, i := BobIsLost(limits, d, entity, t);
    states, labels, j := Newcomer(limits, states1, labels1, d, "carol", entity, t);
    GoesOnLonger([INITIAL], [], states1, labels1, states, labels, d, t);
    GoesOnInOrder([INITIAL], [], states, labels, d, t);
    forall m | i < m < j && Mutates(states[m], labels[m], d) ensures !Relinquishes(Act(labels[m].op), "bob", entity) {
      assert m < |labels1| ==> states[m] == states1[m] && labels[m] == labels1[m];
    }
  }
}
