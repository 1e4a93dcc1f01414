/** One collaboration room: members, leased entity locks, and the frames broadcast on its
    channel (crates/ox-api/src/collaboration.rs). */
module CollabRoom {
  import opened Prelude

  type UserId = string
  type EntityId = string

  // Coordinates are never computed with, so their type does not matter.
  datatype Cursor = Cursor(x: int, y: int, selected: Option<string>)

  datatype Member = Member(name: string, joinedAt: Time, cursor: Option<Cursor>,
                           lastCursorAt: Option<Time>, lastActivityAt: Time)

  datatype Lock = Lock(heldBy: UserId, expiresAt: Time)

  datatype Presence = Presence(name: string, joinedAt: Time, cursor: Option<Cursor>)

  // An ontology mutation; rooms only pass it on.
  type Command = string

  // A saved batch of commands: who authored it, against which revision, and what it contains.
  datatype Commit = Commit(author: UserId, authorName: string, baseRevision: int, newRevision: int,
    commands: seq<Command>)

  datatype Frame =
    | UserJoined(user: UserId, info: Presence)
    | UserLeft(user: UserId)
    | RemoteCursor(user: UserId, name: string, cursor: Cursor)
    | LockGranted(entity: EntityId, heldBy: UserId, expiresAt: Time)
    | LockReleased(entity: EntityId)
    | EntityUpdated(commit: Commit)

  // The answer to a lock request.
  datatype Reply = NotJoined | Granted(heldBy: UserId, expiresAt: Time) | Denied(holder: UserId)

  datatype Limits = Limits(lockTtl: nat, cursorThrottle: nat, idleTimeout: nat)

  // `log` is the broadcast channel: every frame sent since the room was created.
  datatype RoomState = RoomState(members: map<UserId, Member>, locks: map<EntityId, Lock>, log: seq<Frame>)

  const EMPTY_ROOM := RoomState(map[], map[], [])

  const MAX_CHRONO_MILLIS := 0x7FFF_FFFF_FFFF_FFFF
  const FALLBACK_MILLIS := 300_000

  // A configured duration as chrono sees it: too long falls back to five minutes.
  function ChronoMillis(d: nat): nat {
    if d <= MAX_CHRONO_MILLIS then d else FALLBACK_MILLIS
  }

  // ------------------------------------------------------------------
  // Room operations
  // ------------------------------------------------------------------

  // `released` is the order in which a leave happens to enumerate the leaver's locks.
  // An acquire reads the wall clock twice: `seen` for activity, then `now` for the lease.
  // A cursor move reads the monotonic clock (`tick`) and the wall clock.
  datatype RoomOp =
    | Join(user: UserId, name: string, now: Time)
    | Leave(user: UserId, released: seq<EntityId>, now: Time)
    | MoveCursor(user: UserId, cursor: Cursor, tick: Time, now: Time)
    | Acquire(user: UserId, entity: EntityId, seen: Time, now: Time)
    | Release(user: UserId, entity: EntityId, now: Time)
    | Announce(commit: Commit, now: Time)
  {
    function First(): Time { if Acquire? then seen else now }
  }

  function HeldBy(locks: map<EntityId, Lock>, user: UserId): set<EntityId> {
    set e | e in locks && locks[e].heldBy == user
  }

  // `order` lists every element of `s` exactly once.
  ghost predicate Enumerates(order: seq<EntityId>, s: set<EntityId>) {
    && (forall e :: e in order <==> e in s)
    && (forall i, j :: 0 <= i < j < |order| ==> order[i] != order[j])
  }

  ghost predicate Enabled(r: RoomState, op: RoomOp) {
    match op
    case Leave(user, released, _) => Enumerates(released, HeldBy(r.locks, user))
    case Acquire(_, _, seen, now) => seen <= now
    case _ => true
  }

  predicate Throttled(limits: Limits, m: Member, tick: Time) {
    m.lastCursorAt.Some? && Elapsed(tick, m.lastCursorAt.value) < limits.cursorThrottle
  }

  function ReleasedFrames(released: seq<EntityId>): seq<Frame> {
    seq(|released|, i requires 0 <= i < |released| => LockReleased(released[i]))
  }

  // Another user's lease of the entity has not expired.
  predicate HeldAgainst(locks: map<EntityId, Lock>, user: UserId, entity: EntityId, now: Time) {
    entity in locks && locks[entity].heldBy != user && locks[entity].expiresAt > now
  }

  function AnswerLock(limits: Limits, r: RoomState, user: UserId, entity: EntityId, now: Time): Reply {
    if user !in r.members then NotJoined
    else if entity in r.locks && r.locks[entity].heldBy != user && r.locks[entity].expiresAt > now then
      Denied(r.locks[entity].heldBy)
    else Granted(user, now + ChronoMillis(limits.lockTtl))
  }

  // What an operation sends on the channel. A refresh of one's own lock sends nothing.
  function Emitted(limits: Limits, r: RoomState, op: RoomOp): seq<Frame> {
    match op
    case Join(user, name, now) => [UserJoined(user, Presence(name, now, None))]
    case Leave(user, released, _) => ReleasedFrames(released) + [UserLeft(user)]
    case MoveCursor(user, cursor, tick, _) =>
      if user !in r.members || Throttled(limits, r.members[user], tick) then []
      else [RemoteCursor(user, r.members[user].name, cursor)]
    case Acquire(user, entity, _, now) =>
      var reply := AnswerLock(limits, r, user, entity, now);
      if reply.Granted? && !(entity in r.locks && r.locks[entity].heldBy == user) then
        [LockGranted(entity, user, reply.expiresAt)]
      else []
    case Release(user, entity, _) =>
      if user in r.members && entity in r.locks && r.locks[entity].heldBy == user then [LockReleased(entity)]
      else []
    case Announce(commit, _) => [EntityUpdated(commit)]
  }

  function Touch(members: map<UserId, Member>, user: UserId, now: Time): map<UserId, Member>
    requires user in members
  {
    members[user := members[user].(lastActivityAt := now)]
  }

  function StepMembers(limits: Limits, r: RoomState, op: RoomOp): map<UserId, Member> {
    match op
    case Join(user, name, now) => r.members[user := Member(name, now, None, None, now)]
    case Leave(user, _, _) => r.members - {user}
    case MoveCursor(user, cursor, tick, now) =>
      if user !in r.members || Throttled(limits, r.members[user], tick) then r.members
      else r.members[user := r.members[user].(cursor := Some(cursor), lastCursorAt := Some(tick),
        lastActivityAt := now)]
    case Acquire(user, _, seen, _) => if user in r.members then Touch(r.members, user, seen) else r.members
    case Release(user, _, now) => if user in r.members then Touch(r.members, user, now) else r.members
    case Announce(_, _) => r.members
  }

  function StepLocks(limits: Limits, r: RoomState, op: RoomOp): map<EntityId, Lock> {
    match op
    case Leave(user, _, _) => r.locks - HeldBy(r.locks, user)
    case Acquire(user, entity, _, now) =>
      var reply := AnswerLock(limits, r, user, entity, now);
      if reply.Granted? then r.locks[entity := Lock(user, reply.expiresAt)] else r.locks
    case Release(user, entity, _) =>
      if user in r.members && entity in HeldBy(r.locks, user) then r.locks - {entity} else r.locks
    case _ => r.locks
  }

  function Step(limits: Limits, r: RoomState, op: RoomOp): RoomState {
    RoomState(StepMembers(limits, r, op), StepLocks(limits, r, op), r.log + Emitted(limits, r, op))
  }

  // ------------------------------------------------------------------
  // The room object
  // ------------------------------------------------------------------

  /** Receiver position and unicast snapshot handed to a joining socket. */
  datatype JoinOutcome = JoinOutcome(position: nat, users: map<UserId, Presence>, locks: map<EntityId, Lock>)

  class Room {
    var members: map<UserId, Member>
    var locks: map<EntityId, Lock>
    var log: seq<Frame>

    constructor ()
      ensures Abs() == EMPTY_ROOM
    {
      members, locks, log := map[], map[], [];
    }

    function Abs(): RoomState
      reads this
    {
      RoomState(members, locks, log)
    }

    method Send(f: Frame)
      modifies this`log
      ensures log == old(log) + [f]
    {
      log := log + [f];
    }

    method Join(ghost limits: Limits, user: UserId, name: string, now: Time) returns (outcome: JoinOutcome)
      modifies this
      ensures Abs() == Step(limits, old(Abs()), RoomOp.Join(user, name, now))
      ensures outcome == Joined(Abs(), |old(log)|)
    {
      members := members[user := Member(name, now, None, None, now)];
      // Subscribe before broadcasting: the receiver also sees its own join.
      outcome := JoinOutcome(|log|, Presences(members), locks);
      Send(UserJoined(user, Presence(name, now, None)));
    }

    method Leave(ghost limits: Limits, user: UserId, now: Time) returns (released: seq<EntityId>, empty: bool)
      modifies this
      ensures Enabled(old(Abs()), RoomOp.Leave(user, released, now))
      ensures Abs() == Step(limits, old(Abs()), RoomOp.Leave(user, released, now))
      ensures empty == (members == map[])
    {
      members := members - {user};
      released := Owned(user);
      var i := 0;
      while i < |released|
        invariant 0 <= i <= |released|
        invariant members == old(members) - {user}
        invariant locks == old(locks) - (set k | 0 <= k < i :: released[k])
        invariant log == old(log) + ReleasedFrames(released)[..i]
      {
        locks := locks - {released[i]};
        Send(LockReleased(released[i]));
        i := i + 1;
      }
      Send(UserLeft(user));
      empty := members == map[];
      assert (set k | 0 <= k < |released| :: released[k]) == HeldBy(old(locks), user);
      assert ReleasedFrames(released)[..|released|] == ReleasedFrames(released);
    }

    // Collects the locks of `user` in whatever order the table enumerates them.
    method Owned(user: UserId) returns (released: seq<EntityId>)
      ensures Enumerates(released, HeldBy(locks, user))
    {
      var rest := HeldBy(locks, user);
      released := [];
      while rest != {}
        invariant Enumerates(released, HeldBy(locks, user) - rest)
        invariant rest <= HeldBy(locks, user)
        decreases |rest|
      {
        var e :| e in rest;
        released := released + [e];
        rest := rest - {e};
      }
    }

    method MoveCursor(limits: Limits, user: UserId, cursor: Cursor, tick: Time, now: Time)
      modifies this
      ensures Abs() == Step(limits, old(Abs()), RoomOp.MoveCursor(user, cursor, tick, now))
    {
      if user !in members {
        return;
      }
      var member := members[user];
      if member.lastCursorAt.Some? && Elapsed(tick, member.lastCursorAt.value) < limits.cursorThrottle {
        return;
      }
      member := member.(lastCursorAt := Some(tick), lastActivityAt := now);
      member := member.(cursor := Some(cursor));
      members := members[user := member];
      Send(RemoteCursor(user, member.name, cursor));
    }

    method Acquire(limits: Limits, user: UserId, entity: EntityId, seen: Time, now: Time) returns (reply: Reply)
      modifies this
      ensures Abs() == Step(limits, old(Abs()), RoomOp.Acquire(user, entity, seen, now))
      ensures reply == AnswerLock(limits, old(Abs()), user, entity, now)
      ensures reply.NotJoined? <==> user !in old(members)
      ensures reply.Denied? <==> user in old(members) && HeldAgainst(old(locks), user, entity, now)
      ensures reply.Denied? ==> reply.holder == old(locks)[entity].heldBy && locks == old(locks)
      ensures reply.Granted? ==>
        entity in locks && locks == old(locks)[entity := Lock(user, locks[entity].expiresAt)] &&
        reply == Granted(user, locks[entity].expiresAt) &&
        (limits.lockTtl <= 0x7FFF_FFFF_FFFF_FFFF ==> locks[entity].expiresAt == now + limits.lockTtl)
    {
      if user !in members {
        return NotJoined;
      }
      members := members[user := members[user].(lastActivityAt := seen)];
      var expiresAt := now + ChronoMillis(limits.lockTtl);
      if entity in locks {
        var held := locks[entity];
        if held.heldBy == user {
          locks := locks[entity := held.(expiresAt := expiresAt)];
          return Granted(user, expiresAt);
        }
        if held.expiresAt > now {
          return Denied(held.heldBy);
        }
      }
      locks := locks[entity := Lock(user, expiresAt)];
      Send(LockGranted(entity, user, expiresAt));
      return Granted(user, expiresAt);
    }

    method Release(ghost limits: Limits, user: UserId, entity: EntityId, now: Time) returns (error: Option<Reply>)
      modifies this
      ensures Abs() == Step(limits, old(Abs()), RoomOp.Release(user, entity, now))
      ensures error == if user in old(members) then None else Some(NotJoined)
    {
      if user !in members {
        return Some(NotJoined);
      }
      members := members[user := members[user].(lastActivityAt := now)];
      if !(entity in locks && locks[entity].heldBy == user) {
        return None;
      }
      locks := locks - {entity};
      Send(LockReleased(entity));
      return None;
    }
  }

  function Presences(members: map<UserId, Member>): map<UserId, Presence> {
    map u | u in members :: Presence(members[u].name, members[u].joinedAt, members[u].cursor)
  }

  function Joined(r: RoomState, position: nat): JoinOutcome {
    JoinOutcome(position, Presences(r.members), r.locks)
  }

  // ------------------------------------------------------------------
  // Replicas
  // ------------------------------------------------------------------

  datatype View = View(users: map<UserId, Presence>, locks: map<EntityId, Lock>)

  // How a subscriber folds one frame into its replica of the room.
  function Apply(v: View, f: Frame): View {
    match f
    case UserJoined(user, info) => v.(users := v.users[user := info])
    case UserLeft(user) => v.(users := v.users - {user})
    case RemoteCursor(user, name, cursor) =>
      if user in v.users then v.(users := v.users[user := v.users[user].(cursor := Some(cursor))]) else v
    case LockGranted(entity, heldBy, expiresAt) => v.(locks := v.locks[entity := Lock(heldBy, expiresAt)])
    case LockReleased(entity) => v.(locks := v.locks - {entity})
    case EntityUpdated(_) => v
  }

  function Fold(v: View, frames: seq<Frame>): View {
    if frames == [] then v else Apply(Fold(v, frames[..|frames| - 1]), frames[|frames| - 1])
  }

  lemma {:induction false} FoldAppend(v: View, a: seq<Frame>, b: seq<Frame>)
    ensures Fold(v, a + b) == Fold(Fold(v, a), b)
    decreases |b|
  {
    if b == [] {
      assert a + b == a;
    } else {
      assert (a + b)[..|a + b| - 1] == a + b[..|b| - 1];
      FoldAppend(v, a, b[..|b| - 1]);
    }
  }

  // Folding a leave's release frames removes exactly the released entities.
  lemma {:induction false} FoldReleases(v: View, released: seq<EntityId>)
    ensures Fold(v, ReleasedFrames(released)) == View(v.users, v.locks - (set e | e in released))
  {
    var frames := ReleasedFrames(released);
    if released == [] {
      assert v.locks - (set e | e in released) == v.locks;
    } else {
      var init := released[..|released| - 1];
      assert frames[..|frames| - 1] == ReleasedFrames(init);
      FoldReleases(v, init);
      var last := released[|released| - 1];
      assert released == init + [last];
      assert v.locks - (set e | e in released) == (v.locks - (set e | e in init)) - {last};
    }
  }

  // The replica has the room's members (names, join times, cursors) and lock holders; only
  // a deadline may lag, and then behind the room's.
  ghost predicate Tracks(v: View, r: RoomState) {
    && v.users == Presences(r.members)
    && v.locks.Keys == r.locks.Keys
    && forall e :: e in r.locks ==>
      v.locks[e].heldBy == r.locks[e].heldBy && v.locks[e].expiresAt <= r.locks[e].expiresAt
  }

  // No lease runs past one full time-to-live from `now`.
  ghost predicate LeasesWithin(limits: Limits, r: RoomState, now: Time) {
    forall e :: e in r.locks ==> r.locks[e].expiresAt <= now + ChronoMillis(limits.lockTtl)
  }

  lemma FoldOne(v: View, f: Frame)
    ensures Fold(v, [f]) == Apply(v, f)
  {
    assert [f][..0] == [];
  }

  // A leave's frames take the leaver and exactly its locks out of the replica.
  lemma FoldLeave(v: View, r: RoomState, user: UserId, released: seq<EntityId>)
    requires Enumerates(released, HeldBy(r.locks, user))
    ensures Fold(v, ReleasedFrames(released) + [UserLeft(user)])
         == View(v.users - {user}, v.locks - HeldBy(r.locks, user))
  {
    FoldAppend(v, ReleasedFrames(released), [UserLeft(user)]);
    FoldReleases(v, released);
    FoldOne(Fold(v, ReleasedFrames(released)), UserLeft(user));
    assert (set e | e in released) == HeldBy(r.locks, user);
  }

  lemma UsersTrack(limits: Limits, v: View, r: RoomState, op: RoomOp)
    requires Tracks(v, r) && Enabled(r, op)
    ensures Fold(v, Emitted(limits, r, op)).users == Presences(StepMembers(limits, r, op))
  {
    var frames := Emitted(limits, r, op);
    if op.Leave? {
      FoldLeave(v, r, op.user, op.released);
    } else if frames != [] {
      FoldOne(v, frames[0]);
      assert frames == [frames[0]];
    }
  }

  lemma LocksTrack(limits: Limits, v: View, r: RoomState, op: RoomOp)
    requires Tracks(v, r) && Enabled(r, op) && LeasesWithin(limits, r, op.First())
    ensures var v', locks' := Fold(v, Emitted(limits, r, op)), StepLocks(limits, r, op);
      && v'.locks.Keys == locks'.Keys
      && forall e :: e in locks' ==>
        v'.locks[e].heldBy == locks'[e].heldBy && v'.locks[e].expiresAt <= locks'[e].expiresAt
  {
    var frames := Emitted(limits, r, op);
    if op.Leave? {
      FoldLeave(v, r, op.user, op.released);
    } else if frames != [] {
      FoldOne(v, frames[0]);
      assert frames == [frames[0]];
    }
  }

  lemma TracksStep(limits: Limits, v: View, r: RoomState, op: RoomOp)
    requires Tracks(v, r) && Enabled(r, op) && LeasesWithin(limits, r, op.First())
    ensures Tracks(Fold(v, Emitted(limits, r, op)), Step(limits, r, op))
  {
    UsersTrack(limits, v, r, op);
    LocksTrack(limits, v, r, op);
  }
}
