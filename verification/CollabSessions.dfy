/** Per-user session slots: reserved when a socket opens, freed by a task that its handle
    spawns when dropped (crates/ox-api/src/collaboration.rs). */
module CollabSessions {

  type UserId = string

  function Count(counts: map<UserId, nat>, user: UserId): nat {
    if user in counts then counts[user] else 0
  }

  // The slots in use, with multiplicity.
  ghost function Bag(counts: map<UserId, nat>): (bag: multiset<UserId>)
    ensures forall u :: bag[u] == Count(counts, u)
  {
    if counts == map[] then multiset{}
    else
      var k :| k in counts;
      Bag(counts - {k})[k := counts[k]]
  }

  function Reserve(cap: nat, counts: map<UserId, nat>, user: UserId): (map<UserId, nat>, bool) {
    if Count(counts, user) >= cap then (counts[user := Count(counts, user)], false)
    else (counts[user := Count(counts, user) + 1], true)
  }

  function Free(counts: map<UserId, nat>, user: UserId): map<UserId, nat> {
    if user !in counts then counts
    else if counts[user] <= 1 then counts - {user}
    else counts[user := counts[user] - 1]
  }

  class SessionTable {
    const cap: nat
    var sessions: map<UserId, nat>

    constructor (cap: nat)
      ensures this.cap == cap && sessions == map[]
    {
      this.cap := cap;
      sessions := map[];
    }

    method TryReserve(user: UserId) returns (ok: bool)
      modifies this
      ensures (sessions, ok) == Reserve(cap, old(sessions), user)
    {
      if user !in sessions {
        sessions := sessions[user := 0];
      }
      assert sessions == sessions[user := sessions[user]];
      if sessions[user] >= cap {
        return false;
      }
      sessions := sessions[user := sessions[user] + 1];
      assert sessions == old(sessions)[user := Count(old(sessions), user) + 1];
      return true;
    }

    method Release(user: UserId)
      modifies this
      ensures sessions == Free(old(sessions), user)
    {
      if user in sessions {
        var count := if sessions[user] >= 1 then sessions[user] - 1 else 0;
        sessions := sessions[user := count];
        if count == 0 {
          sessions := sessions - {user};
        }
      }
    }

    method ActiveSessions() returns (total: nat)
      ensures total == |Bag(sessions)|
    {
      total := 0;
      var rest := sessions;
      while rest != map[]
        invariant rest.Keys <= sessions.Keys && forall u :: u in rest ==> rest[u] == sessions[u]
        invariant total + |Bag(rest)| == |Bag(sessions)|
        decreases |rest.Keys|
      {
        var user :| user in rest;
        total := total + rest[user];
        assert Bag(rest - {user}) == Bag(rest)[user := 0];
        assert (rest - {user}).Keys == rest.Keys - {user};
        rest := rest - {user};
      }
    }
  }

  // ------------------------------------------------------------------
  // Handles and pending releases
  // ------------------------------------------------------------------

  // `live` are the handles in use, `pending` the dropped handles whose release has not run.
  datatype Sys = Sys(counts: map<UserId, nat>, live: multiset<UserId>, pending: multiset<UserId>)

  const INITIAL := Sys(map[], multiset{}, multiset{})

  datatype Op = Open(user: UserId) | DropHandle(user: UserId) | RunRelease(user: UserId)

  predicate Allowed(s: Sys, op: Op) {
    match op
    case Open(_) => true
    case DropHandle(user) => user in s.live
    case RunRelease(user) => user in s.pending
  }

  function Next(cap: nat, s: Sys, op: Op): Sys {
    match op
    case Open(user) =>
      var (counts, ok) := Reserve(cap, s.counts, user);
      Sys(counts, if ok then s.live + multiset{user} else s.live, s.pending)
    case DropHandle(user) => s.(live := s.live - multiset{user}, pending := s.pending + multiset{user})
    case RunRelease(user) => s.(counts := Free(s.counts, user), pending := s.pending - multiset{user})
  }

  ghost predicate Run(cap: nat, states: seq<Sys>, ops: seq<Op>) {
    && |states| == |ops| + 1 && states[0] == INITIAL
    && forall i :: 0 <= i < |ops| ==> Allowed(states[i], ops[i]) && states[i + 1] == Next(cap, states[i], ops[i])
  }

  predicate Balanced(cap: nat, s: Sys, u: UserId) {
    && Count(s.counts, u) == s.live[u] + s.pending[u] <= cap
    && (cap >= 1 && u in s.counts ==> s.counts[u] >= 1)
  }

  ghost predicate Conserved(cap: nat, s: Sys) {
    forall u :: Balanced(cap, s, u)
  }

  lemma BalancedStep(cap: nat, s: Sys, op: Op, u: UserId)
    requires Balanced(cap, s, u) && Allowed(s, op)
    ensures Balanced(cap, Next(cap, s, op), u)
  {
  }

  lemma ConservedStep(cap: nat, s: Sys, op: Op)
    requires Conserved(cap, s) && Allowed(s, op)
    ensures Conserved(cap, Next(cap, s, op))
  {
    forall u ensures Balanced(cap, Next(cap, s, op), u) {
      BalancedStep(cap, s, op, u);
    }
  }

  lemma {:induction false} ConservedAlways(cap: nat, states: seq<Sys>, ops: seq<Op>, i: nat)
    requires Run(cap, states, ops) && i <= |ops|
    ensures Conserved(cap, states[i])
  {
    if i > 0 {
      ConservedAlways(cap, states, ops, i - 1);
      assert Allowed(states[i - 1], ops[i - 1]) && states[i] == Next(cap, states[i - 1], ops[i - 1]);
      ConservedStep(cap, states[i - 1], ops[i - 1]);
    }
  }

  /** A user's count is the live handles plus the releases still to run; with a positive cap it
      is between one and the cap, or the user has no entry; the reported total is exact; and a
      release always finds a slot to free, so the saturating subtraction never saturates. */
  lemma SlotsAreConserved(cap: nat, states: seq<Sys>, ops: seq<Op>, i: nat)
    requires Run(cap, states, ops) && i <= |ops|
    ensures forall u :: Balanced(cap, states[i], u)
    ensures |Bag(states[i].counts)| == |states[i].live| + |states[i].pending|
    ensures i < |ops| && ops[i].RunRelease? ==> Count(states[i].counts, ops[i].user) >= 1
  {
    ConservedAlways(cap, states, ops, i);
    forall u ensures Bag(states[i].counts)[u] == (states[i].live + states[i].pending)[u] {
      assert Balanced(cap, states[i], u);
    }
    assert Bag(states[i].counts) == states[i].live + states[i].pending;
    if i < |ops| {
      assert Balanced(cap, states[i], ops[i].user);
      assert Allowed(states[i], ops[i]);
    }
  }

  /** A socket is refused exactly when the user's live and unreleased sessions fill the cap. */
  lemma RefusedIffFull(cap: nat, states: seq<Sys>, ops: seq<Op>, i: nat, user: UserId)
    requires Run(cap, states, ops) && i <= |ops|
    ensures Reserve(cap, states[i].counts, user).1 <==> states[i].live[user] + states[i].pending[user] < cap
  {
    ConservedAlways(cap, states, ops, i);
    assert Balanced(cap, states[i], user);
  }

  ghost predicate HasAsked(ops: seq<Op>, i: nat, user: UserId)
    requires i <= |ops|
  {
    exists k :: 0 <= k < i && ops[k] == Open(user)
  }

  /** A user keeps an entry that counts nothing iff the cap is zero, which configuration rejects,
      and the user ever asked: refused reservations leave it behind and nothing removes it. */
  lemma {:induction false} ZeroEntryIffZeroCap(cap: nat, states: seq<Sys>, ops: seq<Op>, i: nat, user: UserId)
    requires Run(cap, states, ops) && i <= |ops|
    ensures user in states[i].counts && states[i].counts[user] == 0 <==> cap == 0 && HasAsked(ops, i, user)
  {
    ConservedAlways(cap, states, ops, i);
    assert Balanced(cap, states[i], user);
    if i > 0 {
      ZeroEntryIffZeroCap(cap, states, ops, i - 1, user);
      ConservedAlways(cap, states, ops, i - 1);
      assert Balanced(cap, states[i - 1], user);
      assert Allowed(states[i - 1], ops[i - 1]) && states[i] == Next(cap, states[i - 1], ops[i - 1]);
      assert HasAsked(ops, i, user) <==> HasAsked(ops, i - 1, user) || ops[i - 1] == Open(user);
    }
  }
}
