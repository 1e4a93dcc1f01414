/** The collaboration hub with every trait call as one atomic step: a registry of rooms
    keyed by draft id (crates/ox-api/src/collaboration.rs). */
module CollabHub {
  import opened Prelude
  import opened CollabRoom
  import opened CollabLife

  type DraftId = string

  type Rooms = map<DraftId, RoomState>

  datatype HubOp = HubOp(draft: DraftId, op: RoomOp)

  // A draft without a registered room looks like one with an empty room.
  function RoomAt(rooms: Rooms, d: DraftId): RoomState {
    if d in rooms then rooms[d] else EMPTY_ROOM
  }

  // Joining and asking for a lock register a missing room; everything else ignores it.
  predicate Reaches(rooms: Rooms, h: HubOp) {
    h.draft in rooms || h.op.Join? || h.op.Acquire?
  }

  function HubStep(limits: Limits, rooms: Rooms, h: HubOp): Rooms {
    if !Reaches(rooms, h) then rooms
    else
      var r' := Step(limits, RoomAt(rooms, h.draft), h.op);
      if h.op.Leave? && r'.members == map[] then rooms - {h.draft} else rooms[h.draft := r']
  }

  // ------------------------------------------------------------------
  // The hub object
  // ------------------------------------------------------------------

  class Hub {
    const limits: Limits
    var rooms: map<DraftId, Room>

    // No two drafts share a room object.
    ghost predicate Valid()
      reads this
    {
      forall d, d' :: d in rooms && d' in rooms && d != d' ==> rooms[d] != rooms[d']
    }

    ghost function Abs(): Rooms
      reads this, rooms.Values
    {
      map d | d in rooms :: rooms[d].Abs()
    }

    constructor (limits: Limits)
      ensures Valid() && Abs() == map[] && this.limits == limits
    {
      this.limits := limits;
      rooms := map[];
    }

    // When only the room of `d` changed or appeared, that is all there is to the new state.
    twostate lemma OnlyChanged(d: DraftId)
      requires old(Valid()) && d in rooms && rooms.Keys == old(rooms.Keys) + {d}
      requires forall d' :: d' in old(rooms) && d' != d ==> rooms[d'] == old(rooms[d'])
      requires forall d' :: d' in old(rooms) && d' != d ==> old(rooms[d'].Abs()) == old(rooms[d']).Abs()
      ensures Abs() == old(Abs())[d := rooms[d].Abs()]
    {
      forall k | k in rooms
        ensures Abs()[k] == old(Abs())[d := rooms[d].Abs()][k]
      {
      }
    }

    method RoomFor(d: DraftId) returns (room: Room)
      requires Valid()
      modifies this
      ensures Valid() && d in rooms && rooms[d] == room
      ensures rooms == old(rooms)[d := room]
      ensures d in old(rooms) ==> room == old(rooms[d])
      ensures d !in old(rooms) ==> fresh(room) && room.Abs() == EMPTY_ROOM
    {
      if d in rooms {
        return rooms[d];
      }
      room := new Room();
      rooms := rooms[d := room];
    }

    method Join(d: DraftId, user: UserId, name: string, now: Time) returns (outcome: JoinOutcome)
      requires Valid()
      modifies this, rooms.Values
      ensures Valid() && fresh(rooms.Values - old(rooms.Values))
      ensures Abs() == HubStep(limits, old(Abs()), HubOp(d, RoomOp.Join(user, name, now)))
      ensures outcome == Joined(Abs()[d], |RoomAt(old(Abs()), d).log|)
    {
      var room := RoomFor(d);
      outcome := room.Join(limits, user, name, now);
      OnlyChanged(d);
    }

    method Leave(d: DraftId, user: UserId, now: Time) returns (released: seq<EntityId>)
      requires Valid()
      modifies this, rooms.Values
      ensures Valid() && rooms.Values <= old(rooms.Values)
      ensures Enabled(RoomAt(old(Abs()), d), RoomOp.Leave(user, released, now))
      ensures Abs() == HubStep(limits, old(Abs()), HubOp(d, RoomOp.Leave(user, released, now)))
    {
      if d !in rooms {
        return [];
      }
      var empty: bool;
      released, empty := rooms[d].Leave(limits, user, now);
      OnlyChanged(d);
      if empty {
        Unregister(d);
      }
    }

    method Unregister(d: DraftId)
      requires Valid()
      modifies this
      ensures Valid() && rooms == old(rooms) - {d}
      ensures Abs() == old(Abs()) - {d}
    {
      rooms := rooms - {d};
    }

    method MoveCursor(d: DraftId, user: UserId, cursor: Cursor, tick: Time, now: Time)
      requires Valid()
      modifies this, rooms.Values
      ensures Valid() && rooms == old(rooms)
      ensures Abs() == HubStep(limits, old(Abs()), HubOp(d, RoomOp.MoveCursor(user, cursor, tick, now)))
    {
      if d in rooms {
        rooms[d].MoveCursor(limits, user, cursor, tick, now);
        OnlyChanged(d);
      }
    }

    method AcquireLock(d: DraftId, user: UserId, entity: EntityId, seen: Time, now: Time) returns (reply: Reply)
      requires Valid()
      modifies this, rooms.Values
      ensures Valid() && fresh(rooms.Values - old(rooms.Values))
      ensures Abs() == HubStep(limits, old(Abs()), HubOp(d, RoomOp.Acquire(user, entity, seen, now)))
      ensures reply == AnswerLock(limits, RoomAt(old(Abs()), d), user, entity, now)
      ensures reply.Granted? ==> reply.heldBy == user && d in Abs() && entity in Abs()[d].locks
      ensures reply.Granted? ==> Abs()[d].locks[entity] == Lock(user, reply.expiresAt)
    {
      var room := RoomFor(d);
      reply := room.Acquire(limits, user, entity, seen, now);
      OnlyChanged(d);
    }

    method ReleaseLock(d: DraftId, user: UserId, entity: EntityId, now: Time) returns (error: Option<Reply>)
      requires Valid()
      modifies this, rooms.Values
      ensures Valid() && rooms == old(rooms)
      ensures Abs() == HubStep(limits, old(Abs()), HubOp(d, RoomOp.Release(user, entity, now)))
      ensures error.Some? <==> d in rooms && user !in old(Abs())[d].members
    {
      error := None;
      if d in rooms {
        error := rooms[d].Release(limits, user, entity, now);
        OnlyChanged(d);
      }
    }

    method BroadcastEntityUpdated(d: DraftId, commit: Commit, ghost now: Time)
      requires Valid()
      modifies this, rooms.Values
      ensures Valid() && rooms == old(rooms)
      ensures Abs() == HubStep(limits, old(Abs()), HubOp(d, RoomOp.Announce(commit, now)))
    {
      if d in rooms {
        rooms[d].Send(EntityUpdated(commit));
        OnlyChanged(d);
      }
    }

    method IdleIn(room: Room, cutoff: Time) returns (idle: seq<UserId>)
      ensures Lists(idle, set u | u in room.members && room.members[u].lastActivityAt < cutoff)
    {
      idle := [];
      var users := room.members.Keys;
      while users != {}
        invariant users <= room.members.Keys
        invariant Lists(idle, set u | u in room.members && u !in users && room.members[u].lastActivityAt < cutoff)
        decreases |users|
      {
        var u :| u in users;
        ghost var seen := set w | w in room.members && w !in users && room.members[w].lastActivityAt < cutoff;
        users := users - {u};
        ghost var seen' := set w | w in room.members && w !in users && room.members[w].lastActivityAt < cutoff;
        if room.members[u].lastActivityAt < cutoff {
          ListsConcat(idle, seen, [u], {u});
          idle := idle + [u];
          assert seen' == seen + {u};
        } else {
          assert seen' == seen;
        }
      }
    }

    // Snapshots the (room, user) pairs whose last frame is older than `cutoff`.
    method CollectIdle(cutoff: Time) returns (victims: seq<(DraftId, UserId)>)
      requires Valid()
      ensures Lists(victims, IdlePairs(Abs(), cutoff))
    {
      victims := [];
      ghost var state := Abs();
      var drafts := rooms.Keys;
      while drafts != {}
        invariant drafts <= rooms.Keys
        invariant Lists(victims, set p | p in IdlePairs(state, cutoff) && p.0 !in drafts)
        decreases |drafts|
      {
        var d :| d in drafts;
        var idle := IdleIn(rooms[d], cutoff);
        var pairs := seq(|idle|, k requires 0 <= k < |idle| => (d, idle[k]));
        ghost var seen := set p | p in IdlePairs(state, cutoff) && p.0 !in drafts;
        ghost var here := set p | p in IdlePairs(state, cutoff) && p.0 == d;
        drafts := drafts - {d};
        ListsPaired(state, d, idle, cutoff);
        ListsConcat(victims, seen, pairs, here);
        victims := victims + pairs;
        assert (set p | p in IdlePairs(state, cutoff) && p.0 !in drafts) == seen + here;
      }
    }

    method ReapIdleMembers(now: Time) returns (total: nat, ghost trace: seq<HubOp>)
      requires Valid()
      modifies this, rooms.Values
      ensures Valid()
      ensures Sweeps(limits, old(Abs()), now - ChronoMillis(limits.idleTimeout), trace)
      ensures Abs() == Replay(limits, old(Abs()), trace)
      ensures total == |trace|
    {
      var cutoff := now - ChronoMillis(limits.idleTimeout);
      var victims := CollectIdle(cutoff);
      total, trace := 0, [];
      while total < |victims|
        invariant 0 <= total <= |victims| && |trace| == total
        invariant Valid() && rooms.Values <= old(rooms.Values)
        invariant EnabledAlong(limits, old(Abs()), trace)
        invariant forall k :: 0 <= k < total ==> Evicts(trace[k], victims[k])
        invariant Abs() == Replay(limits, old(Abs()), trace)
      {
        var released := Leave(victims[total].0, victims[total].1, now);
        ghost var h := HubOp(victims[total].0, RoomOp.Leave(victims[total].1, released, now));
        Extend(limits, old(Abs()), trace, h);
        trace := trace + [h];
        total := total + 1;
      }
      PairsOf(trace, victims);
    }
  }

  // ------------------------------------------------------------------
  // Idle sweeps
  // ------------------------------------------------------------------

  function IdlePairs(rooms: Rooms, cutoff: Time): set<(DraftId, UserId)> {
    set d, u | d in rooms && u in rooms[d].members && rooms[d].members[u].lastActivityAt < cutoff :: (d, u)
  }

  ghost predicate Lists<T(!new)>(order: seq<T>, s: set<T>) {
    && (forall x :: x in order <==> x in s)
    && (forall i, j :: 0 <= i < j < |order| ==> order[i] != order[j])
  }

  lemma ListsConcat<T(!new)>(a: seq<T>, s: set<T>, b: seq<T>, t: set<T>)
    requires Lists(a, s) && Lists(b, t) && s !! t
    ensures Lists(a + b, s + t)
  {
    var c := a + b;
    forall i, j | 0 <= i < j < |c| ensures c[i] != c[j] {
      assert i < |a| ==> c[i] in s;
      assert |a| <= j ==> c[j] == b[j - |a|] && c[j] in t;
      assert |a| <= i ==> c[i] == b[i - |a|];
    }
  }

  lemma ListsPaired(rooms: Rooms, d: DraftId, idle: seq<UserId>, cutoff: Time)
    requires d in rooms
    requires Lists(idle, set u | u in rooms[d].members && rooms[d].members[u].lastActivityAt < cutoff)
    ensures Lists(seq(|idle|, k requires 0 <= k < |idle| => (d, idle[k])), set p | p in IdlePairs(rooms, cutoff) &&
      p.0 == d)
  {
    var pairs := seq(|idle|, k requires 0 <= k < |idle| => (d, idle[k]));
    forall p ensures p in pairs <==> p in IdlePairs(rooms, cutoff) && p.0 == d {
      if p in IdlePairs(rooms, cutoff) && p.0 == d {
        assert p.1 in idle;
        var k :| 0 <= k < |idle| && idle[k] == p.1;
        assert pairs[k] == p;
      }
      if p in pairs {
        var k :| 0 <= k < |pairs| && pairs[k] == p;
        assert idle[k] in idle;
      }
    }
  }

  function Replay(limits: Limits, rooms: Rooms, trace: seq<HubOp>): Rooms {
    if trace == [] then rooms
    else HubStep(limits, Replay(limits, rooms, trace[..|trace| - 1]), trace[|trace| - 1])
  }

  ghost predicate EnabledAlong(limits: Limits, rooms: Rooms, trace: seq<HubOp>) {
    forall k :: 0 <= k < |trace| ==> Enabled(RoomAt(Replay(limits, rooms, trace[..k]), trace[k].draft), trace[k].op)
  }

  lemma Extend(limits: Limits, rooms: Rooms, trace: seq<HubOp>, h: HubOp)
    requires EnabledAlong(limits, rooms, trace) && Enabled(RoomAt(Replay(limits, rooms, trace), h.draft), h.op)
    ensures EnabledAlong(limits, rooms, trace + [h])
    ensures Replay(limits, rooms, trace + [h]) == HubStep(limits, Replay(limits, rooms, trace), h)
  {
    assert (trace + [h])[..|trace|] == trace;
    assert forall k :: 0 <= k < |trace| ==> (trace + [h])[..k] == trace[..k];
  }

  ghost predicate Evicts(h: HubOp, victim: (DraftId, UserId)) {
    h.draft == victim.0 && h.op.Leave? && h.op.user == victim.1
  }

  ghost function Pairs(trace: seq<HubOp>): seq<(DraftId, UserId)>
    requires forall k :: 0 <= k < |trace| ==> trace[k].op.Leave?
  {
    seq(|trace|, k requires 0 <= k < |trace| => (trace[k].draft, trace[k].op.user))
  }

  lemma PairsOf(trace: seq<HubOp>, victims: seq<(DraftId, UserId)>)
    requires |trace| == |victims| && forall k :: 0 <= k < |trace| ==> Evicts(trace[k], victims[k])
    ensures forall k :: 0 <= k < |trace| ==> trace[k].op.Leave?
    ensures Pairs(trace) == victims
  {
    assert forall k :: 0 <= k < |trace| ==> Evicts(trace[k], victims[k]);
  }

  // `trace` is one leave per idle member of `rooms`, and nothing else.
  ghost predicate Sweeps(limits: Limits, rooms: Rooms, cutoff: Time, trace: seq<HubOp>) {
    && EnabledAlong(limits, rooms, trace)
    && (forall k :: 0 <= k < |trace| ==> trace[k].op.Leave?)
    && Lists(Pairs(trace), IdlePairs(rooms, cutoff))
  }

  lemma {:induction false} ListsCount<T(!new)>(order: seq<T>, s: set<T>)
    requires Lists(order, s)
    ensures |order| == |s|
  {
    if order == [] {
      assert s == {};
    } else {
      var x := order[|order| - 1];
      assert order[..|order| - 1] + [x] == order;
      assert Lists(order[..|order| - 1], s - {x});
      ListsCount(order[..|order| - 1], s - {x});
    }
  }

  // What is left of a room once `gone` have been evicted.
  function Without(r: RoomState, gone: set<UserId>): (map<UserId, Member>, map<EntityId, Lock>) {
    (map u | u in r.members && u !in gone :: r.members[u],
     map e | e in r.locks && r.locks[e].heldBy !in gone :: r.locks[e])
  }

  ghost function EvictedFrom(trace: seq<HubOp>, d: DraftId): set<UserId> {
    set k | 0 <= k < |trace| && trace[k].draft == d && trace[k].op.Leave? :: trace[k].op.user
  }

  // The room of one draft after evicting `gone`, as far as members and locks go.
  ghost predicate Evicted(start: RoomState, r: RoomState, gone: set<UserId>) {
    (r.members, r.locks) == Without(start, gone)
  }

  // Replaying leaves evicts their users, with all their locks, and nobody else.
  lemma {:induction false} LeavesEvict(limits: Limits, rooms: Rooms, trace: seq<HubOp>, d: DraftId)
    requires forall k :: 0 <= k < |trace| ==> trace[k].op.Leave?
    requires HoldersJoined(RoomAt(rooms, d))
    ensures Evicted(RoomAt(rooms, d), RoomAt(Replay(limits, rooms, trace), d), EvictedFrom(trace, d))
  {
    if trace == [] {
      var r := RoomAt(rooms, d);
      assert EvictedFrom(trace, d) == {};
      assert Without(r, {}).0 == r.members && Without(r, {}).1 == r.locks;
    } else {
      var init, h := trace[..|trace| - 1], trace[|trace| - 1];
      LeavesEvict(limits, rooms, init, d);
      EvictedFromLast(init, h, d);
      assert trace == init + [h];
      assert Replay(limits, rooms, trace) == HubStep(limits, Replay(limits, rooms, init), h);
      if h.draft == d {
        HubLeaveEvicts(limits, RoomAt(rooms, d), Replay(limits, rooms, init), EvictedFrom(init, d), h);
      }
    }
  }

  lemma EvictedFromLast(init: seq<HubOp>, h: HubOp, d: DraftId)
    requires h.op.Leave?
    ensures EvictedFrom(init + [h], d) == if h.draft == d then EvictedFrom(init, d) + {h.op.user}
      else EvictedFrom(init, d)
  {
    var trace := init + [h];
    assert trace[|init|] == h && forall k :: 0 <= k < |init| ==> trace[k] == init[k];
    forall u | u in EvictedFrom(init, d) ensures u in EvictedFrom(trace, d) {
      var k :| 0 <= k < |init| && init[k].draft == d && init[k].op.Leave? && init[k].op.user == u;
      assert trace[k].op.user == u;
    }
  }

  lemma HubLeaveEvicts(limits: Limits, start: RoomState, rooms: Rooms, gone: set<UserId>, h: HubOp)
    requires HoldersJoined(start) && Evicted(start, RoomAt(rooms, h.draft), gone) && h.op.Leave?
    ensures Evicted(start, RoomAt(HubStep(limits, rooms, h), h.draft), gone + {h.op.user})
  {
    LeaveEvicts(limits, start, RoomAt(rooms, h.draft), gone, h.op);
  }

  lemma LeaveEvicts(limits: Limits, start: RoomState, r: RoomState, gone: set<UserId>, op: RoomOp)
    requires HoldersJoined(start) && Evicted(start, r, gone) && op.Leave?
    ensures var r' := Step(limits, r, op);
      && Evicted(start, r', gone + {op.user})
      && (r'.members == map[] ==> r'.locks == map[])
      && (r.members == map[] ==> r'.members == map[])
  {
    var r' := Step(limits, r, op);
    var w := Without(start, gone + {op.user});
    assert r'.members == w.0;
    assert r'.locks == w.1;
    assert HoldersJoined(r);
    HoldersJoinedStep(limits, r, op);
  }

  // A room goes exactly when one of the leaves empties it.
  lemma {:induction false} LeavesUnregister(limits: Limits, rooms: Rooms, trace: seq<HubOp>, d: DraftId)
    requires forall k :: 0 <= k < |trace| ==> trace[k].op.Leave?
    ensures d in Replay(limits, rooms, trace) <==>
      d in rooms && (EvictedFrom(trace, d) == {} || RoomAt(Replay(limits, rooms, trace), d).members != map[])
  {
    if trace == [] {
      assert EvictedFrom(trace, d) == {};
    } else {
      var init, h := trace[..|trace| - 1], trace[|trace| - 1];
      LeavesUnregister(limits, rooms, init, d);
      EvictedFromLast(init, h, d);
      assert trace == init + [h];
      assert Replay(limits, rooms, trace) == HubStep(limits, Replay(limits, rooms, init), h);
      if h.draft == d {
        assert h.op.user in EvictedFrom(trace, d);
        assert RoomAt(Replay(limits, rooms, init), d).members == map[] ==>
          Step(limits, RoomAt(Replay(limits, rooms, init), d), h.op).members == map[];
      }
    }
  }

  /** One sweep leaves in every room exactly the members active since the cutoff, releases
      exactly the evicted members' locks, and counts the evictions. It unregisters exactly
      the rooms it empties: a room that was already empty is never swept away. */
  lemma SweepExact(limits: Limits, rooms: Rooms, cutoff: Time, trace: seq<HubOp>, d: DraftId)
    requires Sweeps(limits, rooms, cutoff, trace) && HoldersJoined(RoomAt(rooms, d))
    ensures var r, r' := RoomAt(rooms, d), RoomAt(Replay(limits, rooms, trace), d);
      && (forall u :: u in r'.members <==> u in r.members && r.members[u].lastActivityAt >= cutoff)
      && (forall u :: u in r'.members ==> r'.members[u] == r.members[u])
      && (forall e :: e in r'.locks <==> e in r.locks && r.locks[e].heldBy in r'.members)
      && (forall e :: e in r'.locks ==> r'.locks[e] == r.locks[e])
    ensures d in Replay(limits, rooms, trace) <==>
      d in rooms && (RoomAt(Replay(limits, rooms, trace), d).members != map[] || rooms[d].members == map[])
    ensures |trace| == |IdlePairs(rooms, cutoff)|
  {
    LeavesEvict(limits, rooms, trace, d);
    LeavesUnregister(limits, rooms, trace, d);
    ListsCount(Pairs(trace), IdlePairs(rooms, cutoff));
    SweptUsers(limits, rooms, cutoff, trace, d);
  }

  lemma SweptUsers(limits: Limits, rooms: Rooms, cutoff: Time, trace: seq<HubOp>, d: DraftId)
    requires Sweeps(limits, rooms, cutoff, trace)
    ensures EvictedFrom(trace, d) == set u | u in RoomAt(rooms, d).members &&
      RoomAt(rooms, d).members[u].lastActivityAt < cutoff
  {
    forall u ensures u in EvictedFrom(trace, d) <==> (d, u) in Pairs(trace) {
      if (d, u) in Pairs(trace) {
        var k :| 0 <= k < |trace| && Pairs(trace)[k] == (d, u);
        assert trace[k].draft == d && trace[k].op.Leave? && trace[k].op.user == u;
      }
      if u in EvictedFrom(trace, d) {
        var k :| 0 <= k < |trace| && trace[k].draft == d && trace[k].op.Leave? && trace[k].op.user == u;
        assert Pairs(trace)[k] == (d, u);
      }
    }
  }

  // ------------------------------------------------------------------
  // Whole runs
  // ------------------------------------------------------------------

  ghost predicate HubRun(limits: Limits, states: seq<Rooms>, ops: seq<HubOp>) {
    && |states| == |ops| + 1 && states[0] == map[]
    && (forall i :: 0 <= i < |ops| ==>
          (Enabled(RoomAt(states[i], ops[i].draft), ops[i].op) && states[i + 1] == HubStep(limits, states[i], ops[i])))
    && (forall i, j :: 0 <= i < j < |ops| ==> ops[i].op.now <= ops[j].op.First())
  }

  // The run as seen by the room of draft `d`.
  function RoomsOf(states: seq<Rooms>, d: DraftId): seq<RoomState> {
    seq(|states|, i requires 0 <= i < |states| => RoomAt(states[i], d))
  }

  function EventsOf(states: seq<Rooms>, ops: seq<HubOp>, d: DraftId): seq<Event>
    requires |states| == |ops| + 1
  {
    seq(|ops|, i requires 0 <= i < |ops| =>
      if ops[i].draft == d && Reaches(states[i], ops[i]) then Act(ops[i].op) else Idle)
  }

  lemma HubRunIsLife(limits: Limits, states: seq<Rooms>, ops: seq<HubOp>, d: DraftId)
    requires HubRun(limits, states, ops)
    ensures Life(limits, RoomsOf(states, d), EventsOf(states, ops, d))
  {
    var rs, es := RoomsOf(states, d), EventsOf(states, ops, d);
    forall i | 0 <= i < |ops| ensures LifeStep(limits, rs[i], es[i], rs[i + 1]) {
      assert Enabled(RoomAt(states[i], ops[i].draft), ops[i].op);
      assert states[i + 1] == HubStep(limits, states[i], ops[i]);
    }
  }

  /** A draft gets a room by a join or a lock request for it, whatever the answer, and loses it by a leave
      after which nobody is in it; nothing else registers or unregisters one, or touches another draft. */
  lemma RegisteredIff(limits: Limits, rooms: Rooms, h: HubOp, d: DraftId)
    ensures d in HubStep(limits, rooms, h) <==>
      if h.draft != d then d in rooms
      else if h.op.Leave? then d in rooms && exists u :: u in rooms[d].members && u != h.op.user
      else d in rooms || h.op.Join? || h.op.Acquire?
    ensures h.draft != d && d in rooms ==> HubStep(limits, rooms, h)[d] == rooms[d]
    ensures h.draft == d && d in rooms && d in HubStep(limits, rooms, h) ==>
      HubStep(limits, rooms, h)[d] == Step(limits, rooms[d], h.op)
  {
    if h.draft == d && h.op.Leave? && d in rooms {
      var r' := Step(limits, rooms[d], h.op);
      assert forall u :: u in r'.members <==> u in rooms[d].members && u != h.op.user;
      if r'.members != map[] {
        var u :| u in r'.members;
      }
    }
  }

  /** In every reachable hub state every lock holder is a member of its room, hence a room
      without members has no locks. */
  lemma HoldersAreMembers(limits: Limits, states: seq<Rooms>, ops: seq<HubOp>, i: nat, d: DraftId)
    requires HubRun(limits, states, ops) && i <= |ops|
    ensures HoldersJoined(RoomAt(states[i], d))
    ensures RoomAt(states[i], d).members == map[] ==> RoomAt(states[i], d).locks == map[]
  {
    HubRunIsLife(limits, states, ops, d);
    var rs, es := RoomsOf(states, d), EventsOf(states, ops, d);
    LifeInvariant(limits, rs, es, i, LatestReading(es, i));
    assert rs[i] == RoomAt(states[i], d);
  }

  /** Replica convergence: see CollabLife.ReplicaConverges. The room of `d` lives from the
      join to the observed state exactly when `d` stays registered. */
  lemma ReplicaFollowsRoom(limits: Limits, states: seq<Rooms>, ops: seq<HubOp>, i: nat, j: nat)
    requires HubRun(limits, states, ops) && i < j <= |ops| && ops[i].op.Join?
    requires forall k :: i < k <= j ==> ops[i].draft in states[k]
    ensures var d := ops[i].draft;
      var start := Joined(states[i + 1][d], |RoomAt(states[i], d).log|);
      && start.position <= |states[j][d].log|
      && Tracks(Fold(View(start.users, start.locks), states[j][d].log[start.position..]), states[j][d])
  {
    var d := ops[i].draft;
    HubRunIsLife(limits, states, ops, d);
    var rs, es := RoomsOf(states, d), EventsOf(states, ops, d);
    forall k | i <= k < j ensures Kept(limits, rs[k], es[k], rs[k + 1]) {
      assert Enabled(RoomAt(states[k], ops[k].draft), ops[k].op);
      assert states[k + 1] == HubStep(limits, states[k], ops[k]);
      assert d in states[k + 1];
    }
    ReplicaConverges(limits, rs, es, i, j);
  }

  ghost predicate GrantedAt(limits: Limits, rooms: Rooms, h: HubOp, d: DraftId, user: UserId, entity: EntityId,
                            deadline: Time) {
    && h.draft == d && h.op.Acquire? && h.op.user == user && h.op.entity == entity
    && AnswerLock(limits, RoomAt(rooms, d), user, entity, h.op.now) == Granted(user, deadline)
  }

  ghost predicate GivesUp(h: HubOp, d: DraftId, user: UserId, entity: EntityId) {
    h.draft == d && Relinquishes(Act(h.op), user, entity)
  }

  /** Lease safety on every run of the hub, across room removal and re-creation. */
  lemma LeasesDoNotOverlap(limits: Limits, states: seq<Rooms>, ops: seq<HubOp>, i: nat, j: nat, d: DraftId,
                           user: UserId, other: UserId, entity: EntityId, deadline: Time, later: Time)
    requires HubRun(limits, states, ops) && i < j < |ops| && user != other
    requires GrantedAt(limits, states[i], ops[i], d, user, entity, deadline)
    requires GrantedAt(limits, states[j], ops[j], d, other, entity, later)
    ensures ops[j].op.now >= deadline || exists k :: i < k < j && GivesUp(ops[k], d, user, entity)
  {
    HubRunIsLife(limits, states, ops, d);
    var rs, es := RoomsOf(states, d), EventsOf(states, ops, d);
    LeaseSafety(limits, rs, es, i, j, user, other, entity, deadline, later);
    if RelinquishedBetween(es, i, j, user, entity) {
      var k: nat :| i < k < j && Relinquishes(es[k], user, entity);
      assert GivesUp(ops[k], d, user, entity);
    }
  }

  // A member of the room asks for an entity that nobody else's unexpired lease withholds.
  ghost predicate AsksAt(rooms: Rooms, h: HubOp, d: DraftId, user: UserId, entity: EntityId) {
    && h.draft == d && h.op.Acquire? && h.op.user == user && h.op.entity == entity
    && user in RoomAt(rooms, d).members && !HeldAgainst(RoomAt(rooms, d).locks, user, entity, h.op.now)
  }

  /** On every run of the hub such a request gives its user the entity, in the registered room, for the
      whole configured time, unless the user gives it up: in every state and for every reading before
      that time has passed. A repeated request counts from its own reading. */
  lemma LeaseLastsOnHub(limits: Limits, states: seq<Rooms>, ops: seq<HubOp>, i: nat, j: nat, d: DraftId,
                        user: UserId, entity: EntityId)
    requires HubRun(limits, states, ops) && i < j <= |ops| && limits.lockTtl <= 0x7FFF_FFFF_FFFF_FFFF
    requires AsksAt(states[i], ops[i], d, user, entity)
    requires forall k :: i < k < j ==> ops[k].op.now < ops[i].op.now + limits.lockTtl
    requires forall k :: i < k < j ==> !GivesUp(ops[k], d, user, entity)
    ensures d in states[j] && entity in states[j][d].locks && states[j][d].locks[entity].heldBy == user
    ensures states[j][d].locks[entity].expiresAt >= ops[i].op.now + limits.lockTtl
  {
    HubRunIsLife(limits, states, ops, d);
    LeaseLasts(limits, RoomsOf(states, d), EventsOf(states, ops, d), i, j, user, entity);
  }

  // The grant at operation i outlasts operation j's reading of the clock and is not given up before it.
  ghost predicate LiveAt(limits: Limits, states: seq<Rooms>, ops: seq<HubOp>, i: nat, j: nat, d: DraftId,
                         holder: UserId, entity: EntityId, deadline: Time)
    requires |states| == |ops| + 1 && j < |ops|
  {
    && i < j && deadline > ops[j].op.now && GrantedAt(limits, states[i], ops[i], d, holder, entity, deadline)
    && forall k :: i < k < j ==> !GivesUp(ops[k], d, holder, entity)
  }

  // While a lease is live its draft is registered, so giving it up reaches the room.
  lemma GivenUpIsSeen(limits: Limits, states: seq<Rooms>, ops: seq<HubOp>, i: nat, k: nat, d: DraftId,
                      holder: UserId, entity: EntityId, deadline: Time)
    requires HubRun(limits, states, ops) && i < k < |ops| && ops[k].op.now < deadline
    requires GrantedAt(limits, states[i], ops[i], d, holder, entity, deadline)
    requires !RelinquishedBetween(EventsOf(states, ops, d), i, k, holder, entity)
    ensures GivesUp(ops[k], d, holder, entity) ==> Relinquishes(EventsOf(states, ops, d)[k], holder, entity)
  {
    HubRunIsLife(limits, states, ops, d);
    var rs, es := RoomsOf(states, d), EventsOf(states, ops, d);
    LeasePersists(limits, rs, es, i, k, holder, entity, deadline);
    if m: nat :| i < m < k && es[m].Act? && es[m].op.now >= deadline {
      assert ops[m].op.now <= ops[k].op.First();
      assert Enabled(RoomAt(states[k], ops[k].draft), ops[k].op);
    }
  }

  lemma LeasedIffLive(limits: Limits, states: seq<Rooms>, ops: seq<HubOp>, i: nat, j: nat, d: DraftId,
                      holder: UserId, entity: EntityId, deadline: Time)
    requires HubRun(limits, states, ops) && j < |ops| && deadline > ops[j].op.now
    ensures LeasedSince(limits, RoomsOf(states, d), EventsOf(states, ops, d), i, j, holder, entity, deadline) <==>
      LiveAt(limits, states, ops, i, j, d, holder, entity, deadline)
  {
    var rs, es := RoomsOf(states, d), EventsOf(states, ops, d);
    if LeasedSince(limits, rs, es, i, j, holder, entity, deadline) {
      forall k | i < k < j ensures !GivesUp(ops[k], d, holder, entity) {
        Earlier(limits, states, ops, k, j);
        GivenUpIsSeen(limits, states, ops, i, k, d, holder, entity, deadline);
      }
    }
  }

  /** And nothing but a live lease refuses a member: a request by a member of a room is denied in
      favour of `holder` iff an earlier grant to `holder` has neither expired nor been given up. */
  lemma DeniedIffLiveLease(limits: Limits, states: seq<Rooms>, ops: seq<HubOp>, j: nat, user: UserId, holder: UserId,
                           entity: EntityId)
    requires HubRun(limits, states, ops) && j < |ops| && ops[j].op.Acquire?
    requires user in RoomAt(states[j], ops[j].draft).members
    ensures AnswerLock(limits, RoomAt(states[j], ops[j].draft), user, entity, ops[j].op.now) == Denied(holder) <==>
      (holder != user && exists i: nat, deadline ::
        LiveAt(limits, states, ops, i, j, ops[j].draft, holder, entity, deadline))
  {
    var d := ops[j].draft;
    HubRunIsLife(limits, states, ops, d);
    var rs, es := RoomsOf(states, d), EventsOf(states, ops, d);
    DeniedIffLeased(limits, rs, es, j, user, holder, entity);
    if i: nat, deadline :| LeasedSince(limits, rs, es, i, j, holder, entity, deadline) && deadline > ops[j].op.now {
      LeasedIffLive(limits, states, ops, i, j, d, holder, entity, deadline);
    }
    if i: nat, deadline :| LiveAt(limits, states, ops, i, j, d, holder, entity, deadline) {
      LeasedIffLive(limits, states, ops, i, j, d, holder, entity, deadline);
    }
  }

  lemma Earlier(limits: Limits, states: seq<Rooms>, ops: seq<HubOp>, k: nat, j: nat)
    requires HubRun(limits, states, ops) && k < j < |ops|
    ensures ops[k].op.now <= ops[j].op.now
  {
    assert Enabled(RoomAt(states[j], ops[j].draft), ops[j].op);
    assert ops[k].op.now <= ops[j].op.First();
  }

  // ------------------------------------------------------------------
  // Empty rooms
  // ------------------------------------------------------------------

  ghost predicate EverJoined(r: RoomState) {
    exists k :: 0 <= k < |r.log| && r.log[k].UserJoined?
  }

  lemma EverJoinedStep(limits: Limits, r: RoomState, op: RoomOp)
    ensures EverJoined(Step(limits, r, op)) <==> EverJoined(r) || op.Join?
  {
    var r', sent := Step(limits, r, op), Emitted(limits, r, op);
    assert forall k :: 0 <= k < |r.log| ==> r'.log[k] == r.log[k];
    assert forall k :: |r.log| <= k < |r'.log| ==> r'.log[k] == sent[k - |r.log|];
    if op.Join? {
      assert r'.log[|r.log|].UserJoined?;
    }
  }

  // Only a leave empties a room.
  lemma EmptyStep(limits: Limits, r: RoomState, op: RoomOp)
    requires !op.Leave?
    ensures Step(limits, r, op).members == map[] <==> r.members == map[] && !op.Join?
  {
    var r' := Step(limits, r, op);
    assert op.Join? ==> op.user in r'.members;
    assert !op.Join? ==> r'.members.Keys == r.members.Keys;
  }

  /** A registered room is empty exactly when nobody has joined it since it was created. */
  lemma {:induction false} EmptyIffNeverJoined(limits: Limits, states: seq<Rooms>, ops: seq<HubOp>, i: nat, d: DraftId)
    requires HubRun(limits, states, ops) && i <= |ops| && d in states[i]
    ensures states[i][d].members == map[] <==> !EverJoined(states[i][d])
  {
    var h := ops[i - 1];
    assert states[i] == HubStep(limits, states[i - 1], h);
    if d in states[i - 1] {
      EmptyIffNeverJoined(limits, states, ops, i - 1, d);
    }
    if h.draft == d && Reaches(states[i - 1], h) {
      EverJoinedStep(limits, RoomAt(states[i - 1], d), h.op);
      if h.op.Leave? {
        assert RoomAt(states[i - 1], d).members != map[];
      } else {
        EmptyStep(limits, RoomAt(states[i - 1], d), h.op);
      }
    }
  }

  /** So a lock request for a draft without a room, refused because its sender has not joined, leaves
      an empty room that stays registered until somebody joins or leaves the draft. */
  lemma {:induction false} LeakedRoomStays(limits: Limits, states: seq<Rooms>, ops: seq<HubOp>, i: nat, j: nat,
                                           d: DraftId)
    requires HubRun(limits, states, ops) && i < j <= |ops| && d !in states[i] && ops[i].draft == d && ops[i].op.Acquire?
    requires forall k :: i < k < j && ops[k].draft == d ==> !ops[k].op.Join? && !ops[k].op.Leave?
    ensures AnswerLock(limits, RoomAt(states[i], d), ops[i].op.user, ops[i].op.entity, ops[i].op.now) == NotJoined
    ensures d in states[j] && states[j][d].members == map[]
  {
    assert states[j] == HubStep(limits, states[j - 1], ops[j - 1]);
    if i < j - 1 {
      LeakedRoomStays(limits, states, ops, i, j - 1, d);
    }
  }

  // ------------------------------------------------------------------
  // Bounded silence
  // ------------------------------------------------------------------

  ghost predicate ActiveSince(rooms: Rooms, t: Time) {
    forall d, u :: d in rooms && u in rooms[d].members ==> rooms[d].members[u].lastActivityAt >= t
  }

  lemma ActiveSinceStep(limits: Limits, rooms: Rooms, h: HubOp, t: Time)
    requires ActiveSince(rooms, t) && Enabled(RoomAt(rooms, h.draft), h.op) && h.op.First() >= t
    ensures ActiveSince(HubStep(limits, rooms, h), t)
  {
    var r := RoomAt(rooms, h.draft);
    forall u | u in StepMembers(limits, r, h.op)
      ensures StepMembers(limits, r, h.op)[u].lastActivityAt >= t
    {
    }
  }

  lemma {:induction false} ActiveSinceSweep(limits: Limits, states: seq<Rooms>, ops: seq<HubOp>, s: nat, j: nat,
                                            t: Time)
    requires HubRun(limits, states, ops) && s <= j <= |ops| && ActiveSince(states[s], t)
    requires forall k :: s <= k < j ==> ops[k].op.First() >= t
    ensures ActiveSince(states[j], t)
  {
    if s < j {
      ActiveSinceSweep(limits, states, ops, s, j - 1, t);
      ActiveSinceStep(limits, states[j - 1], ops[j - 1], t);
    }
  }

  // A sweep that read the clock at `start`, collected in state `b` and was done in state `s`. Other
  // operations may have run in between.
  datatype Sweep = Sweep(start: Time, b: nat, s: nat)

  ghost predicate SweepDone(limits: Limits, states: seq<Rooms>, ops: seq<HubOp>, w: Sweep) {
    && |states| == |ops| + 1 && w.b <= w.s <= |ops|
    && (forall k :: w.b <= k < |ops| ==> ops[k].op.First() >= w.start)
    && (forall victim :: victim in IdlePairs(states[w.b], w.start - ChronoMillis(limits.idleTimeout)) ==>
          EvictedIn(ops, w.b, w.s, victim))
  }

  ghost predicate EvictedIn(ops: seq<HubOp>, b: nat, s: nat, victim: (DraftId, UserId))
    requires b <= s <= |ops|
  {
    exists k :: b <= k < s && Evicts(ops[k], victim)
  }

  // What ReapIdleMembers does, when nothing runs in between, is a sweep in this sense.
  lemma AtomicSweepIsDone(limits: Limits, states: seq<Rooms>, ops: seq<HubOp>, w: Sweep)
    requires |states| == |ops| + 1 && w.b <= w.s <= |ops|
    requires Sweeps(limits, states[w.b], w.start - ChronoMillis(limits.idleTimeout), ops[w.b..w.s])
    requires forall k :: w.b <= k < |ops| ==> ops[k].op.First() >= w.start
    ensures SweepDone(limits, states, ops, w)
  {
    ListedAreEvicted(ops, w.b, w.s, IdlePairs(states[w.b], w.start - ChronoMillis(limits.idleTimeout)));
  }

  lemma ListedAreEvicted(ops: seq<HubOp>, b: nat, s: nat, victims: set<(DraftId, UserId)>)
    requires b <= s <= |ops| && (forall k :: 0 <= k < s - b ==> ops[b..s][k].op.Leave?) &&
      Lists(Pairs(ops[b..s]), victims)
    ensures forall victim :: victim in victims ==> EvictedIn(ops, b, s, victim)
  {
    var pairs := Pairs(ops[b..s]);
    forall victim | victim in victims ensures EvictedIn(ops, b, s, victim) {
      var m :| 0 <= m < |pairs| && pairs[m] == victim;
      assert Evicts(ops[b + m], victim);
    }
  }

  // From `t0` on, sweeps start at most `interval` apart, the first within `interval` of `t0`, and
  // each is done before the next one starts.
  ghost predicate SweptRegularly(limits: Limits, states: seq<Rooms>, ops: seq<HubOp>, sweeps: seq<Sweep>, t0: Time,
                                 interval: nat) {
    && (forall k :: 0 <= k < |ops| ==> ops[k].op.First() >= t0)
    && (forall m :: 0 <= m < |sweeps| ==> SweepDone(limits, states, ops, sweeps[m]))
    && (forall m :: 0 <= m < |sweeps| ==> OnTime(sweeps, m, t0, interval))
    && (forall m, n :: 0 <= m < n < |sweeps| ==> sweeps[m].s <= sweeps[n].b)
  }

  predicate OnTime(sweeps: seq<Sweep>, m: nat, t0: Time, interval: nat)
    requires m < |sweeps|
  {
    sweeps[m].start <= StartBefore(sweeps, m, t0) + interval
  }

  function StartBefore(sweeps: seq<Sweep>, m: nat, t0: Time): Time
    requires m <= |sweeps|
  {
    if m == 0 then t0 else sweeps[m - 1].start
  }

  // How many of the sweeps are done in state j.
  function DoneBy(sweeps: seq<Sweep>, j: nat): (m: nat)
    ensures m <= |sweeps| && (m > 0 ==> sweeps[m - 1].s <= j)
  {
    if sweeps == [] then 0
    else if sweeps[|sweeps| - 1].s <= j then |sweeps|
    else DoneBy(sweeps[..|sweeps| - 1], j)
  }

  // When the next sweep starts, or is due.
  function NextStart(sweeps: seq<Sweep>, m: nat, t0: Time, interval: nat): Time
    requires m <= |sweeps|
  {
    if m < |sweeps| then sweeps[m].start else StartBefore(sweeps, m, t0) + interval
  }

  // One step neither makes a member silent since before the cutoff nor keeps one it evicts.
  lemma SilentBefore(limits: Limits, rooms: Rooms, h: HubOp, cutoff: Time, d: DraftId, u: UserId)
    requires Enabled(RoomAt(rooms, h.draft), h.op) && h.op.First() >= cutoff
    requires (d, u) in IdlePairs(HubStep(limits, rooms, h), cutoff)
    ensures (d, u) in IdlePairs(rooms, cutoff) && !Evicts(h, (d, u))
  {
  }

  // A member silent since before the cutoff was collected and has not been evicted yet.
  lemma {:induction false} StillCollected(limits: Limits, states: seq<Rooms>, ops: seq<HubOp>, b: nat, k: nat,
                                          cutoff: Time, d: DraftId, u: UserId)
    requires HubRun(limits, states, ops) && b <= k <= |ops| && forall m :: b <= m < |ops| ==>
      ops[m].op.First() >= cutoff
    requires (d, u) in IdlePairs(states[k], cutoff)
    ensures (d, u) in IdlePairs(states[b], cutoff) && !EvictedIn(ops, b, k, (d, u))
  {
    if b < k {
      assert Enabled(RoomAt(states[k - 1], ops[k - 1].draft), ops[k - 1].op) &&
        states[k] == HubStep(limits, states[k - 1], ops[k - 1]);
      SilentBefore(limits, states[k - 1], ops[k - 1], cutoff, d, u);
      StillCollected(limits, states, ops, b, k - 1, cutoff, d, u);
    }
  }

  lemma SweepClears(limits: Limits, states: seq<Rooms>, ops: seq<HubOp>, w: Sweep)
    requires HubRun(limits, states, ops) && SweepDone(limits, states, ops, w)
    ensures ActiveSince(states[w.s], w.start - ChronoMillis(limits.idleTimeout))
  {
    var cutoff := w.start - ChronoMillis(limits.idleTimeout);
    forall d, u | d in states[w.s] && u in states[w.s][d].members
      ensures states[w.s][d].members[u].lastActivityAt >= cutoff
    {
      if states[w.s][d].members[u].lastActivityAt < cutoff {
        assert (d, u) in IdlePairs(states[w.s], cutoff);
        StillCollected(limits, states, ops, w.b, w.s, cutoff, d, u);
      }
    }
  }

  lemma ActiveAfter(limits: Limits, states: seq<Rooms>, ops: seq<HubOp>, w: Sweep, j: nat)
    requires HubRun(limits, states, ops) && SweepDone(limits, states, ops, w) && w.s <= j <= |ops|
    ensures ActiveSince(states[j], w.start - ChronoMillis(limits.idleTimeout))
  {
    SweepClears(limits, states, ops, w);
    ActiveSinceSweep(limits, states, ops, w.s, j, w.start - ChronoMillis(limits.idleTimeout));
  }

  lemma ActiveFromStart(limits: Limits, states: seq<Rooms>, ops: seq<HubOp>, t0: Time, j: nat)
    requires HubRun(limits, states, ops) && j <= |ops| && forall k :: 0 <= k < |ops| ==> ops[k].op.First() >= t0
    ensures ActiveSince(states[j], t0 - ChronoMillis(limits.idleTimeout))
  {
    ActiveSinceSweep(limits, states, ops, 0, j, t0 - ChronoMillis(limits.idleTimeout));
  }

  /** Under regular sweeps no member is ever silent longer than the idle timeout plus the interval:
      in every state, the time before the first sweep included, and for every reading of the clock
      up to the start of the next sweep. */
  lemma SilenceIsBounded(limits: Limits, states: seq<Rooms>, ops: seq<HubOp>, sweeps: seq<Sweep>, t0: Time,
                         interval: nat,
                         j: nat, now: Time, d: DraftId, u: UserId)
    requires HubRun(limits, states, ops) && SweptRegularly(limits, states, ops, sweeps, t0, interval) && j <= |ops|
    requires now <= NextStart(sweeps, DoneBy(sweeps, j), t0, interval)
    requires d in states[j] && u in states[j][d].members
    ensures now - states[j][d].members[u].lastActivityAt <= ChronoMillis(limits.idleTimeout) + interval
  {
    var m := DoneBy(sweeps, j);
    assert m < |sweeps| ==> OnTime(sweeps, m, t0, interval);
    if m == 0 {
      ActiveFromStart(limits, states, ops, t0, j);
    } else {
      ActiveAfter(limits, states, ops, sweeps[m - 1], j);
    }
  }
}
