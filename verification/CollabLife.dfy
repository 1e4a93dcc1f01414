/** Whole runs of the room behind one draft id, across its removal and re-creation. */
module CollabLife {
  import opened Prelude
  import opened CollabRoom

  // What one step of the surrounding hub does to the room of a fixed draft id.
  datatype Event = Act(op: RoomOp) | Idle

  // `r` and `r'` are the same room object: nothing but the event's operation happened to it.
  ghost predicate Kept(limits: Limits, r: RoomState, ev: Event, r': RoomState) {
    match ev
    case Act(op) => Enabled(r, op) && r' == Step(limits, r, op)
    case Idle => r' == r
  }

  // Otherwise the room was dropped, without members, and the next one starts afresh.
  ghost predicate Dropped(limits: Limits, r: RoomState, ev: Event, r': RoomState) {
    && r' == EMPTY_ROOM
    && match ev
       case Act(op) => Enabled(r, op) && Step(limits, r, op).members == map[]
       case Idle => r.members == map[]
  }

  ghost predicate Timed(events: seq<Event>) {
    forall i, j :: 0 <= i < j < |events| && events[i].Act? && events[j].Act? ==>
      events[i].op.now <= events[j].op.First()
  }

  ghost predicate Life(limits: Limits, states: seq<RoomState>, events: seq<Event>) {
    && |states| == |events| + 1 && states[0] == EMPTY_ROOM && Timed(events)
    && forall i :: 0 <= i < |events| ==> LifeStep(limits, states[i], events[i], states[i + 1])
  }

  ghost predicate LifeStep(limits: Limits, r: RoomState, ev: Event, r': RoomState) {
    Kept(limits, r, ev, r') || Dropped(limits, r, ev, r')
  }

  // Every lock holder is a member.
  ghost predicate HoldersJoined(r: RoomState) {
    forall e :: e in r.locks ==> r.locks[e].heldBy in r.members
  }

  lemma HoldersJoinedStep(limits: Limits, r: RoomState, op: RoomOp)
    requires HoldersJoined(r)
    ensures HoldersJoined(Step(limits, r, op))
  {
  }

  lemma LeasesWithinStep(limits: Limits, r: RoomState, op: RoomOp, t: Time)
    requires LeasesWithin(limits, r, t) && op.now <= t
    ensures LeasesWithin(limits, Step(limits, r, op), t)
  {
  }

  lemma {:induction false} LifeInvariant(limits: Limits, states: seq<RoomState>, events: seq<Event>, i: nat, t: Time)
    requires Life(limits, states, events) && i <= |events|
    requires forall k :: 0 <= k < i && events[k].Act? ==> events[k].op.now <= t
    ensures HoldersJoined(states[i]) && LeasesWithin(limits, states[i], t)
  {
    if i > 0 {
      LifeInvariant(limits, states, events, i - 1, t);
      if events[i - 1].Act? {
        HoldersJoinedStep(limits, states[i - 1], events[i - 1].op);
        LeasesWithinStep(limits, states[i - 1], events[i - 1].op, t);
      }
    }
  }

  // A time no earlier than any reading among the first `i` events.
  function LatestReading(events: seq<Event>, i: nat): (t: Time)
    requires i <= |events|
    ensures forall k :: 0 <= k < i && events[k].Act? ==> events[k].op.now <= t
  {
    if i == 0 then 0
    else if events[i - 1].Act? then Max(LatestReading(events, i - 1), events[i - 1].op.now)
    else LatestReading(events, i - 1)
  }

  // ------------------------------------------------------------------
  // Replica convergence
  // ------------------------------------------------------------------

  ghost predicate KeptBetween(limits: Limits, states: seq<RoomState>, events: seq<Event>, i: nat, j: nat)
    requires |states| == |events| + 1 && i <= j <= |events|
  {
    forall k :: i <= k < j ==> Kept(limits, states[k], events[k], states[k + 1])
  }

  // The frames an event sends carry a tracking view along.
  lemma ReplicaStep(limits: Limits, v: View, position: nat, r: RoomState, ev: Event, r': RoomState)
    requires Kept(limits, r, ev, r') && (ev.Act? ==> LeasesWithin(limits, r, ev.op.First()))
    requires position <= |r.log| && Tracks(Fold(v, r.log[position..]), r)
    ensures position <= |r'.log| && Tracks(Fold(v, r'.log[position..]), r')
  {
    if ev.Act? {
      var before, sent := r.log[position..], Emitted(limits, r, ev.op);
      assert r'.log[position..] == before + sent;
      FoldAppend(v, before, sent);
      TracksStep(limits, Fold(v, before), r, ev.op);
    }
  }

  // The first frame a subscriber folds is its own join.
  lemma ReplicaStarts(limits: Limits, r: RoomState, op: RoomOp)
    requires op.Join?
    ensures var r' := Step(limits, r, op); var start := Joined(r', |r.log|);
      start.position <= |r'.log| && Tracks(Fold(View(start.users, start.locks), r'.log[start.position..]), r')
  {
    var r' := Step(limits, r, op);
    var start := Joined(r', |r.log|);
    assert r'.log[start.position..] == [UserJoined(op.user, Presence(op.name, op.now, None))];
    FoldOne(View(start.users, start.locks), r'.log[start.position]);
  }

  /** A subscriber that starts from its join outcome and folds every frame sent from its
      subscription on has the room, as long as the room object lives. */
  lemma {:induction false} ReplicaConverges(limits: Limits, states: seq<RoomState>, events: seq<Event>, i: nat, j: nat)
    requires Life(limits, states, events) && i < j <= |events|
    requires events[i].Act? && events[i].op.Join?
    requires KeptBetween(limits, states, events, i, j)
    ensures var start := Joined(states[i + 1], |states[i].log|);
      && start.position <= |states[j].log|
      && Tracks(Fold(View(start.users, start.locks), states[j].log[start.position..]), states[j])
  {
    var start := Joined(states[i + 1], |states[i].log|);
    assert Kept(limits, states[j - 1], events[j - 1], states[j]);
    if j == i + 1 {
      ReplicaStarts(limits, states[i], events[i].op);
    } else {
      ReplicaConverges(limits, states, events, i, j - 1);
      if events[j - 1].Act? {
        LifeInvariant(limits, states, events, j - 1, events[j - 1].op.First());
      }
      ReplicaStep(limits, View(start.users, start.locks), start.position, states[j - 1], events[j - 1], states[j]);
    }
  }

  // ------------------------------------------------------------------
  // Lease safety
  // ------------------------------------------------------------------

  // Event `ev`, met in state `r`, grants `entity` to `user` until `deadline`.
  ghost predicate Grants(limits: Limits, r: RoomState, ev: Event, user: UserId, entity: EntityId, deadline: Time) {
    && ev.Act? && ev.op.Acquire? && ev.op.user == user && ev.op.entity == entity
    && AnswerLock(limits, r, user, entity, ev.op.now) == Granted(user, deadline)
  }

  ghost predicate Relinquishes(ev: Event, user: UserId, entity: EntityId) {
    && ev.Act? && (ev.op.Leave? || (ev.op.Release? && ev.op.entity == entity))
    && ev.op.user == user
  }

  ghost predicate Holds(r: RoomState, user: UserId, entity: EntityId, deadline: Time) {
    entity in r.locks && r.locks[entity].heldBy == user && r.locks[entity].expiresAt >= deadline
  }

  ghost predicate RelinquishedBetween(events: seq<Event>, i: nat, j: nat, user: UserId, entity: EntityId)
    requires j <= |events|
  {
    exists k :: i < k < j && Relinquishes(events[k], user, entity)
  }

  lemma HoldsStep(limits: Limits, r: RoomState, op: RoomOp, user: UserId, entity: EntityId, deadline: Time)
    requires Holds(r, user, entity, deadline) && Enabled(r, op) && LeasesWithin(limits, r, op.First())
    requires !Relinquishes(Act(op), user, entity)
    ensures Holds(Step(limits, r, op), user, entity, deadline) || op.now >= deadline
  {
  }

  // A lease outlasts an event that is not its holder's giving it up, unless the clock reads the
  // deadline or later.
  lemma LeaseOutlasts(limits: Limits, r: RoomState, ev: Event, r': RoomState, user: UserId, entity: EntityId,
                      deadline: Time)
    requires LifeStep(limits, r, ev, r') && Holds(r, user, entity, deadline) && HoldersJoined(r)
    requires (ev.Act? ==> LeasesWithin(limits, r, ev.op.First())) && !Relinquishes(ev, user, entity)
    ensures Holds(r', user, entity, deadline) || (ev.Act? && ev.op.now >= deadline)
  {
    if ev.Act? {
      HoldsStep(limits, r, ev.op, user, entity, deadline);
      HoldersJoinedStep(limits, r, ev.op);
    }
  }

  lemma GrantHolds(limits: Limits, r: RoomState, ev: Event, r': RoomState, user: UserId, entity: EntityId,
                   deadline: Time)
    requires LifeStep(limits, r, ev, r') && Grants(limits, r, ev, user, entity, deadline)
    ensures Holds(r', user, entity, deadline)
  {
    assert user in Step(limits, r, ev.op).members;
  }

  // Unless the holder gives it up, a lease stays with it until someone reads a clock at or
  // past the deadline.
  lemma {:induction false} LeasePersists(limits: Limits, states: seq<RoomState>, events: seq<Event>, i: nat, j: nat,
                                         user: UserId, entity: EntityId, deadline: Time)
    requires Life(limits, states, events) && i < j <= |events|
    requires Grants(limits, states[i], events[i], user, entity, deadline)
    requires !RelinquishedBetween(events, i, j, user, entity)
    ensures Holds(states[j], user, entity, deadline) || exists k ::
      i < k < j && events[k].Act? && events[k].op.now >= deadline
  {
    var k := j - 1;
    if k == i {
      GrantHolds(limits, states[i], events[i], states[j], user, entity, deadline);
    } else {
      assert !RelinquishedBetween(events, i, k, user, entity);
      LeasePersists(limits, states, events, i, k, user, entity, deadline);
      assert !Relinquishes(events[k], user, entity);
      if Holds(states[k], user, entity, deadline) {
        LifeInvariant(limits, states, events, k, if events[k].Act? then events[k].op.First()
          else LatestReading(events, k));
        LeaseOutlasts(limits, states[k], events[k], states[j], user, entity, deadline);
      }
    }
  }

  /** If `entity` was granted to `user` until `deadline` and is later granted to someone else,
      the deadline had passed or `user` had released the entity or left the room. */
  lemma LeaseSafety(limits: Limits, states: seq<RoomState>, events: seq<Event>, i: nat, j: nat,
                    user: UserId, other: UserId, entity: EntityId, deadline: Time, later: Time)
    requires Life(limits, states, events) && i < j < |events| && user != other
    requires Grants(limits, states[i], events[i], user, entity, deadline)
    requires Grants(limits, states[j], events[j], other, entity, later)
    ensures events[j].op.now >= deadline || RelinquishedBetween(events, i, j, user, entity)
  {
    if !RelinquishedBetween(events, i, j, user, entity) {
      LeasePersists(limits, states, events, i, j, user, entity, deadline);
      assert LifeStep(limits, states[j], events[j], states[j + 1]);
    }
  }

  /** A member who asks for an entity that is free, expired or already its own has it for the whole
      configured time from then on, refreshes included; nobody else's request changes any lock. */
  lemma AcquireLasts(limits: Limits, r: RoomState, user: UserId, entity: EntityId, seen: Time, now: Time)
    ensures var r' := Step(limits, r, Acquire(user, entity, seen, now));
      if user in r.members && !HeldAgainst(r.locks, user, entity, now) then
        && r'.locks.Keys == r.locks.Keys + {entity} && r'.locks[entity].heldBy == user
        && (forall e :: e in r.locks && e != entity ==> r'.locks[e] == r.locks[e])
        && r'.locks[entity].expiresAt ==
             now + if limits.lockTtl <= 0x7FFF_FFFF_FFFF_FFFF then limits.lockTtl else 300_000
      else r'.locks == r.locks
  {
  }

  // Event `ev`, met in state `r`, is a member's request for an entity it may have.
  ghost predicate AsksFor(r: RoomState, ev: Event, user: UserId, entity: EntityId) {
    && ev.Act? && ev.op.Acquire? && ev.op.user == user && ev.op.entity == entity
    && user in r.members && !HeldAgainst(r.locks, user, entity, ev.op.now)
  }

  /** So on every run the entity is that user's in every state reached before the configured time
      has passed since the request, unless the user gave it up. */
  lemma LeaseLasts(limits: Limits, states: seq<RoomState>, events: seq<Event>, i: nat, j: nat, user: UserId,
                   entity: EntityId)
    requires Life(limits, states, events) && i < j <= |events| && limits.lockTtl <= 0x7FFF_FFFF_FFFF_FFFF
    requires AsksFor(states[i], events[i], user, entity)
    requires forall k :: i < k < j && events[k].Act? ==> events[k].op.now < events[i].op.now + limits.lockTtl
    requires !RelinquishedBetween(events, i, j, user, entity)
    ensures entity in states[j].locks && states[j].locks[entity].heldBy == user
    ensures states[j].locks[entity].expiresAt >= events[i].op.now + limits.lockTtl
  {
    var op := events[i].op;
    AcquireLasts(limits, states[i], user, entity, op.seen, op.now);
    LeasePersists(limits, states, events, i, j, user, entity, op.now + limits.lockTtl);
  }

  // A grant at event i that its holder has not given up by event j.
  ghost predicate LeasedSince(limits: Limits, states: seq<RoomState>, events: seq<Event>, i: nat, j: nat,
                              holder: UserId, entity: EntityId, deadline: Time)
    requires |states| == |events| + 1 && j <= |events|
  {
    i < j && Grants(limits, states[i], events[i], holder, entity, deadline) &&
      !RelinquishedBetween(events, i, j, holder, entity)
  }

  // A lock the room has after an event was granted by it, or was there before and not given up.
  lemma LockStep(limits: Limits, r: RoomState, ev: Event, r': RoomState, entity: EntityId)
    requires LifeStep(limits, r, ev, r') && HoldersJoined(r) && entity in r'.locks
    ensures Grants(limits, r, ev, r'.locks[entity].heldBy, entity, r'.locks[entity].expiresAt) ||
      (entity in r.locks && r.locks[entity] == r'.locks[entity] && !Relinquishes(ev, r'.locks[entity].heldBy, entity))
  {
  }

  // A lock in the room was granted, with its present deadline, by some earlier event.
  lemma {:induction false} LockOrigin(limits: Limits, states: seq<RoomState>, events: seq<Event>, j: nat,
                                      entity: EntityId) returns (i: nat)
    requires Life(limits, states, events) && j <= |events| && entity in states[j].locks
    ensures LeasedSince(limits, states, events, i, j, states[j].locks[entity].heldBy, entity,
      states[j].locks[entity].expiresAt)
  {
    var k := j - 1;
    LifeInvariant(limits, states, events, k, LatestReading(events, k));
    LockStep(limits, states[k], events[k], states[j], entity);
    if Grants(limits, states[k], events[k], states[j].locks[entity].heldBy, entity, states[j].locks[entity].expiresAt) {
      i := k;
    } else {
      i := LockOrigin(limits, states, events, k, entity);
    }
  }

  /** A member is refused an entity in favour of `holder` iff `holder`, another user, was granted it
      until later than now and has neither released it nor left since. */
  lemma DeniedIffLeased(limits: Limits, states: seq<RoomState>, events: seq<Event>, j: nat, user: UserId,
                        holder: UserId, entity: EntityId)
    requires Life(limits, states, events) && j < |events| && events[j].Act? && user in states[j].members
    ensures AnswerLock(limits, states[j], user, entity, events[j].op.now) == Denied(holder) <==>
      holder != user && exists i: nat, deadline ::
        LeasedSince(limits, states, events, i, j, holder, entity, deadline) && deadline > events[j].op.now
  {
    var now := events[j].op.now;
    if AnswerLock(limits, states[j], user, entity, now) == Denied(holder) {
      var i := LockOrigin(limits, states, events, j, entity);
    }
    if i: nat, deadline :| LeasedSince(limits, states, events, i, j, holder, entity, deadline) && deadline > now {
      LeasePersists(limits, states, events, i, j, holder, entity, deadline);
      if k: nat :| i < k < j && events[k].Act? && events[k].op.now >= deadline {
        assert events[k].op.now <= events[j].op.First();
        assert LifeStep(limits, states[j], events[j], states[j + 1]);
      }
    }
  }

  // ------------------------------------------------------------------
  // Announcements of releases
  // ------------------------------------------------------------------

  lemma ReleaseFrame(released: seq<EntityId>, entity: EntityId)
    ensures LockReleased(entity) in ReleasedFrames(released) <==> entity in released
  {
    if k: nat :| k < |released| && released[k] == entity {
      assert ReleasedFrames(released)[k] == LockReleased(entity);
    }
  }

  /** On every run a release of an entity is announced exactly when its holder gives it up: releases
      it or leaves. The expiry of a lease announces nothing. */
  lemma ReleasedIffGivenUp(limits: Limits, states: seq<RoomState>, events: seq<Event>, k: nat, entity: EntityId)
    requires Life(limits, states, events) && k < |events| && Kept(limits, states[k], events[k], states[k + 1])
    ensures |states[k].log| <= |states[k + 1].log|
    ensures LockReleased(entity) in states[k + 1].log[|states[k].log|..] <==>
      entity in states[k].locks && Relinquishes(events[k], states[k].locks[entity].heldBy, entity)
  {
    LifeInvariant(limits, states, events, k, LatestReading(events, k));
    if events[k].Act? {
      var op := events[k].op;
      assert states[k + 1].log[|states[k].log|..] == Emitted(limits, states[k], op);
      if op.Leave? {
        ReleaseFrame(op.released, entity);
      }
    } else {
      assert states[k + 1].log[|states[k].log|..] == [];
    }
  }

  // Alice is granted the entity, and Bob after her lease has expired.
  function TakenOver(limits: Limits, entity: EntityId, t: Time): seq<Event> {
    var later := t + ChronoMillis(limits.lockTtl);
    [Act(Join("alice", "Alice", t)), Act(Join("bob", "Bob", t)), Act(Acquire("alice", entity, t, t)),
     Act(Acquire("bob", entity, later, later))]
  }

  /** So a lease can pass from its holder to another user with no release ever announced. */
  lemma ExpiryIsSilent(limits: Limits, entity: EntityId, t: Time) returns (states: seq<RoomState>)
    ensures var deadline := t + ChronoMillis(limits.lockTtl);
      && Life(limits, states, TakenOver(limits, entity, t))
      && states[3].locks == map[entity := Lock("alice", deadline)]
      && states[4].locks.Keys == {entity} && states[4].locks[entity].heldBy == "bob"
      && forall e :: LockReleased(e) !in states[4].log
  {
    var events := TakenOver(limits, entity, t);
    var r1 := Step(limits, EMPTY_ROOM, events[0].op);
    var r2 := Step(limits, r1, events[1].op);
    var r3 := Step(limits, r2, events[2].op);
    states := [EMPTY_ROOM, r1, r2, r3, Step(limits, r3, events[3].op)];
  }

  // ------------------------------------------------------------------
  // Members as the history makes them
  // ------------------------------------------------------------------

  ghost predicate JoinsAs(ev: Event, user: UserId) { ev.Act? && ev.op.Join? && ev.op.user == user }

  ghost predicate LeavesAs(ev: Event, user: UserId) { ev.Act? && ev.op.Leave? && ev.op.user == user }

  // Event k is the user's last join before j, and the user has not left since.
  ghost predicate LastJoin(events: seq<Event>, k: nat, j: nat, user: UserId)
    requires j <= |events|
  {
    && k < j && JoinsAs(events[k], user)
    && forall m :: k < m < j ==> !JoinsAs(events[m], user) && !LeavesAs(events[m], user)
  }

  lemma LastJoinStep(events: seq<Event>, k: nat, j: nat, user: UserId)
    requires j < |events|
    ensures LastJoin(events, k, j + 1, user) <==>
      (k == j && JoinsAs(events[j], user)) ||
      (LastJoin(events, k, j, user) && !JoinsAs(events[j], user) && !LeavesAs(events[j], user))
  {
  }

  lemma MemberStep(limits: Limits, r: RoomState, ev: Event, r': RoomState, user: UserId)
    requires LifeStep(limits, r, ev, r')
    ensures user in r'.members <==> JoinsAs(ev, user) || (user in r.members && !LeavesAs(ev, user))
    ensures user in r'.members && JoinsAs(ev, user) ==>
      r'.members[user].name == ev.op.name && r'.members[user].joinedAt == ev.op.now
    ensures user in r'.members && !JoinsAs(ev, user) ==>
      r'.members[user].name == r.members[user].name && r'.members[user].joinedAt == r.members[user].joinedAt
  {
  }

  /** On every run the members are exactly the users who have joined and not left since, each with the
      name and time of its last join. */
  lemma {:induction false} MembersAreJoined(limits: Limits, states: seq<RoomState>, events: seq<Event>, j: nat,
                                            user: UserId)
    requires Life(limits, states, events) && j <= |events|
    ensures user in states[j].members <==> exists k: nat :: LastJoin(events, k, j, user)
    ensures forall k: nat :: LastJoin(events, k, j, user) ==>
      user in states[j].members && states[j].members[user].name == events[k].op.name &&
      states[j].members[user].joinedAt == events[k].op.now
  {
    if j > 0 {
      var i := j - 1;
      MembersAreJoined(limits, states, events, i, user);
      assert LifeStep(limits, states[i], events[i], states[j]);
      MemberStep(limits, states[i], events[i], states[j], user);
      forall k: nat ensures LastJoin(events, k, j, user) <==>
        (k == i && JoinsAs(events[i], user)) ||
        (LastJoin(events, k, i, user) && !JoinsAs(events[i], user) && !LeavesAs(events[i], user))
      {
        LastJoinStep(events, k, i, user);
      }
      if JoinsAs(events[i], user) {
        assert LastJoin(events, i, j, user);
      } else if user in states[j].members {
        var k: nat :| LastJoin(events, k, i, user);
        assert LastJoin(events, k, j, user);
      }
    }
  }

  // Event k is a cursor move by a member that the others are told of.
  ghost predicate Moves(states: seq<RoomState>, events: seq<Event>, k: nat, user: UserId)
    requires |states| == |events| + 1 && k < |events|
  {
    && events[k].Act? && events[k].op.MoveCursor? && events[k].op.user == user && user in states[k].members
    && states[k + 1].log == states[k].log + [RemoteCursor(user, states[k].members[user].name, events[k].op.cursor)]
  }

  // Event k is the user's last such move before j, since its last join.
  ghost predicate LastMove(states: seq<RoomState>, events: seq<Event>, k: nat, j: nat, user: UserId)
    requires |states| == |events| + 1 && j <= |events|
  {
    k < j && Moves(states, events, k, user) && forall m :: k < m < j ==>
      !Moves(states, events, m, user) && !JoinsAs(events[m], user) && !LeavesAs(events[m], user)
  }

  lemma LastMoveStep(states: seq<RoomState>, events: seq<Event>, k: nat, j: nat, user: UserId)
    requires |states| == |events| + 1 && j < |events|
    ensures LastMove(states, events, k, j + 1, user) <==>
      (k == j && Moves(states, events, j, user)) ||
      (LastMove(states, events, k, j, user) && !Moves(states, events, j, user) && !JoinsAs(events[j], user) &&
       !LeavesAs(events[j], user))
  {
  }

  lemma CursorStep(limits: Limits, states: seq<RoomState>, events: seq<Event>, k: nat, user: UserId)
    requires |states| == |events| + 1 && k < |events| && LifeStep(limits, states[k], events[k], states[k + 1])
    requires user in states[k + 1].members
    ensures JoinsAs(events[k], user) || user in states[k].members
    ensures var m' := states[k + 1].members[user];
      (m'.cursor, m'.lastCursorAt) ==
        if JoinsAs(events[k], user) then (None, None)
        else if Moves(states, events, k, user) then (Some(events[k].op.cursor), Some(events[k].op.tick))
        else (states[k].members[user].cursor, states[k].members[user].lastCursorAt)
  {
  }

  /** A member's cursor is that of its last move announced since it joined, if there is one. */
  lemma {:induction false} CursorIsLastMove(limits: Limits, states: seq<RoomState>, events: seq<Event>, j: nat,
                                            user: UserId)
    requires Life(limits, states, events) && j <= |events| && user in states[j].members
    ensures forall k: nat :: LastMove(states, events, k, j, user) ==>
      states[j].members[user].cursor == Some(events[k].op.cursor) &&
      states[j].members[user].lastCursorAt == Some(events[k].op.tick)
    ensures states[j].members[user].cursor.Some? || states[j].members[user].lastCursorAt.Some? ==>
      exists k: nat :: LastMove(states, events, k, j, user)
  {
    var i := j - 1;
    assert LifeStep(limits, states[i], events[i], states[j]);
    CursorStep(limits, states, events, i, user);
    forall k: nat ensures LastMove(states, events, k, j, user) <==>
      (k == i && Moves(states, events, i, user)) ||
      (LastMove(states, events, k, i, user) && !Moves(states, events, i, user) && !JoinsAs(events[i], user) &&
       !LeavesAs(events[i], user))
    {
      LastMoveStep(states, events, k, i, user);
    }
    if Moves(states, events, i, user) {
      assert LastMove(states, events, i, j, user);
    } else if !JoinsAs(events[i], user) {
      CursorIsLastMove(limits, states, events, i, user);
      if k: nat :| LastMove(states, events, k, i, user) {
        assert !LeavesAs(events[i], user);
        assert LastMove(states, events, k, j, user);
      }
    }
  }

  /** A member's cursor move is announced exactly when its last announced move since it joined, if any,
      is at least the throttle ago, and otherwise changes nothing at all. */
  lemma MovesAreSpaced(limits: Limits, states: seq<RoomState>, events: seq<Event>, n: nat, user: UserId)
    requires Life(limits, states, events) && n < |events|
    requires events[n].Act? && events[n].op.MoveCursor? && events[n].op.user == user && user in states[n].members
    ensures Moves(states, events, n, user) <==> forall k: nat :: LastMove(states, events, k, n, user) ==>
      events[n].op.tick - events[k].op.tick >= limits.cursorThrottle || limits.cursorThrottle == 0
    ensures !Moves(states, events, n, user) ==> states[n + 1] == states[n]
  {
    assert LifeStep(limits, states[n], events[n], states[n + 1]);
    assert user in Step(limits, states[n], events[n].op).members;
    CursorIsLastMove(limits, states, events, n, user);
    if k: nat :| LastMove(states, events, k, n, user) {
      assert states[n].members[user].lastCursorAt == Some(events[k].op.tick);
    }
  }

  // Event k is one by which the user shows itself in the room.
  ghost predicate Shows(states: seq<RoomState>, events: seq<Event>, k: nat, user: UserId)
    requires |states| == |events| + 1 && k < |events|
  {
    JoinsAs(events[k], user) || Moves(states, events, k, user) ||
    (events[k].Act? && user in states[k].members && (events[k].op.Acquire? || events[k].op.Release?) &&
     events[k].op.user == user)
  }

  ghost predicate LastShown(states: seq<RoomState>, events: seq<Event>, k: nat, j: nat, user: UserId)
    requires |states| == |events| + 1 && j <= |events|
  {
    k < j && Shows(states, events, k, user) && forall m :: k < m < j ==> !Shows(states, events, m, user)
  }

  lemma ActivityStep(limits: Limits, states: seq<RoomState>, events: seq<Event>, k: nat, user: UserId)
    requires |states| == |events| + 1 && k < |events| && LifeStep(limits, states[k], events[k], states[k + 1])
    requires user in states[k + 1].members
    ensures Shows(states, events, k, user) || user in states[k].members
    ensures states[k + 1].members[user].lastActivityAt ==
      if Shows(states, events, k, user) then events[k].op.First() else states[k].members[user].lastActivityAt
  {
  }

  /** A member's last activity is the first clock reading of the last request by which it showed itself:
      a join, an announced cursor move, or a lock request or release, whatever the answer. */
  lemma {:induction false} ActivityIsLastShown(limits: Limits, states: seq<RoomState>, events: seq<Event>, j: nat,
                                               user: UserId) returns (k: nat)
    requires Life(limits, states, events) && j <= |events| && user in states[j].members
    ensures LastShown(states, events, k, j, user) && states[j].members[user].lastActivityAt == events[k].op.First()
  {
    var i := j - 1;
    assert LifeStep(limits, states[i], events[i], states[j]);
    ActivityStep(limits, states, events, i, user);
    if Shows(states, events, i, user) {
      k := i;
    } else {
      k := ActivityIsLastShown(limits, states, events, i, user);
    }
  }

  // ------------------------------------------------------------------
  // What is announced
  // ------------------------------------------------------------------

  // The frames an event sends.
  function Sent(states: seq<RoomState>, k: nat): seq<Frame>
    requires k + 1 < |states| && |states[k].log| <= |states[k + 1].log|
  {
    states[k + 1].log[|states[k].log|..]
  }

  lemma NothingTwice(limits: Limits, r: RoomState, op: RoomOp)
    requires Enabled(r, op)
    ensures forall a, b :: 0 <= a < b < |Emitted(limits, r, op)| ==>
      Emitted(limits, r, op)[a] != Emitted(limits, r, op)[b]
  {
  }

  lemma PresenceFrames(limits: Limits, r: RoomState, op: RoomOp, user: UserId)
    ensures forall info :: UserJoined(user, info) in Emitted(limits, r, op) <==>
      JoinsAs(Act(op), user) && info == Presence(op.name, op.now, None)
    ensures UserLeft(user) in Emitted(limits, r, op) <==> LeavesAs(Act(op), user)
    ensures op.Leave? ==> Emitted(limits, r, op)[|Emitted(limits, r, op)| - 1] == UserLeft(op.user)
  {
  }

  lemma GrantFrames(limits: Limits, r: RoomState, op: RoomOp, user: UserId, entity: EntityId)
    ensures forall until :: LockGranted(entity, user, until) in Emitted(limits, r, op) <==>
      op.Acquire? && op.user == user && op.entity == entity &&
      var locks := StepLocks(limits, r, op);
      entity in locks && locks[entity] == Lock(user, until) && !(entity in r.locks && r.locks[entity].heldBy == user)
  {
  }

  lemma CommitFrames(limits: Limits, r: RoomState, op: RoomOp, commit: Commit)
    ensures EntityUpdated(commit) in Emitted(limits, r, op) <==> op.Announce? && op.commit == commit
  {
  }

  /** While a room lives, every join, leave, grant to a new holder and commit is announced to it once, and
      none that did not happen; a leave is announced last, after the releases. */
  lemma AnnouncedIffHappened(limits: Limits, states: seq<RoomState>, events: seq<Event>, k: nat, user: UserId,
                             entity: EntityId, commit: Commit)
    requires Life(limits, states, events) && k < |events| && Kept(limits, states[k], events[k], states[k + 1])
    ensures |states[k].log| <= |states[k + 1].log|
    ensures forall a, b :: 0 <= a < b < |Sent(states, k)| ==> Sent(states, k)[a] != Sent(states, k)[b]
    ensures forall info :: UserJoined(user, info) in Sent(states, k) <==>
      JoinsAs(events[k], user) && info == Presence(events[k].op.name, events[k].op.now, None)
    ensures UserLeft(user) in Sent(states, k) <==> LeavesAs(events[k], user)
    ensures LeavesAs(events[k], user) ==> Sent(states, k)[|Sent(states, k)| - 1] == UserLeft(user)
    ensures forall until :: LockGranted(entity, user, until) in Sent(states, k) <==>
      events[k].Act? && events[k].op.Acquire? && events[k].op.user == user && events[k].op.entity == entity &&
      entity in states[k + 1].locks && states[k + 1].locks[entity] == Lock(user, until) &&
      !(entity in states[k].locks && states[k].locks[entity].heldBy == user)
    ensures EntityUpdated(commit) in Sent(states, k) <==>
      events[k].Act? && events[k].op.Announce? && events[k].op.commit == commit
  {
    if events[k].Act? {
      assert Sent(states, k) == Emitted(limits, states[k], events[k].op);
      NothingTwice(limits, states[k], events[k].op);
      PresenceFrames(limits, states[k], events[k].op, user);
      GrantFrames(limits, states[k], events[k].op, user, entity);
      CommitFrames(limits, states[k], events[k].op, commit);
    } else {
      assert Sent(states, k) == [];
    }
  }
}
