/** Whole requests through the revocation check while others interleave: each looks up the jti axis,
    then the version axis, and is accepted only at the end (crates/ox-api/src/middleware.rs). */
module AuthRequests {
  import opened Prelude
  import opened RevocationCache

  // A request waits for the jti's store answer, has been cleared on that axis, waits for the
  // version's store answer, or is decided.
  datatype Phase =
    | CheckingJti(claims: Claims)
    | Cleared(claims: Claims)
    | CheckingVersion(claims: Claims)
    | Decided(verdict: Verdict)

  datatype Sys = Sys(jtis: Axis<Jti, bool>, users: Axis<UserId, int>, requests: map<Task, Phase>)

  datatype Event =
    | Advance(delta: nat)
    | Revoke(jti: Jti)
    | DropJti(jti: Jti)
    | SetVersion(user: UserId, version: int)
    | DropUser(user: UserId)
    | Begin(task: Task, claims: Claims)
    | ReadJti(task: Task)
    | RecordJti(task: Task)
    | FailJti(task: Task)
    | AskVersion(task: Task)
    | ReadVersion(task: Task)
    | RecordVersion(task: Task)
    | FailVersion(task: Task)

  // What an event does on each axis; `Tick(0)` is nothing.
  function JtiStep(s: Sys, e: Event): Step<Jti, bool> {
    match e
    case Advance(delta) => Tick(delta)
    case Revoke(jti) => Write(jti, true)
    case DropJti(jti) => Invalidate(jti)
    case Begin(t, claims) => if t !in s.requests && !claims.apiKey then Ask(t, claims.jti) else Tick(0)
    case ReadJti(t) => ReadStore(t)
    case RecordJti(t) => Record(t)
    case FailJti(t) => Fail(t)
    case _ => Tick(0)
  }

  function UserStep(s: Sys, e: Event): Step<UserId, int> {
    match e
    case Advance(delta) => Tick(delta)
    case SetVersion(user, version) => Write(user, version)
    case DropUser(user) => Invalidate(user)
    case AskVersion(t) =>
      if t in s.requests && s.requests[t].Cleared? && s.requests[t].claims.userId.Some?
      then Ask(t, s.requests[t].claims.userId.value) else Tick(0)
    case ReadVersion(t) => ReadStore(t)
    case RecordVersion(t) => Record(t)
    case FailVersion(t) => Fail(t)
    case _ => Tick(0)
  }

  function AfterJti(claims: Claims, revoked: Option<bool>): Phase {
    if revoked == Some(false) && claims.userId.Some? then Cleared(claims) else Decided(Unauthorized)
  }

  function AfterVersion(claims: Claims, version: Option<int>): Phase {
    if version == Some(claims.tv) then Decided(Accepted) else Decided(Unauthorized)
  }

  function NextRequests(ttl: nat, s: Sys, e: Event): map<Task, Phase> {
    var jtiReply, userReply := Reply(JtiAxis(ttl), s.jtis, JtiStep(s, e)),
      Reply(VersionAxis(ttl), s.users, UserStep(s, e));
    match e
    case Begin(t, claims) =>
      if t in s.requests then s.requests
      else if claims.apiKey then s.requests[t := Decided(Accepted)]
      else s.requests[t := if jtiReply.Some? then AfterJti(claims, jtiReply.value.1) else CheckingJti(claims)]
    case RecordJti(t) =>
      if t in s.requests && s.requests[t].CheckingJti? && jtiReply.Some?
      then s.requests[t := AfterJti(s.requests[t].claims, jtiReply.value.1)] else s.requests
    case FailJti(t) =>
      if t in s.requests && s.requests[t].CheckingJti? && t in s.jtis.flights && s.jtis.flights[t].Reading?
      then s.requests[t := Decided(Unavailable)] else s.requests
    case AskVersion(t) =>
      if t in s.requests && s.requests[t].Cleared?
      then s.requests[t := if userReply.Some? then AfterVersion(s.requests[t].claims, userReply.value.1)
        else CheckingVersion(s.requests[t].claims)]
      else s.requests
    case RecordVersion(t) =>
      if t in s.requests && s.requests[t].CheckingVersion? && userReply.Some?
      then s.requests[t := AfterVersion(s.requests[t].claims, userReply.value.1)] else s.requests
    case FailVersion(t) =>
      if t in s.requests && s.requests[t].CheckingVersion? && t in s.users.flights && s.users.flights[t].Reading?
      then s.requests[t := Decided(Unavailable)] else s.requests
    case _ => s.requests
  }

  function Next(ttl: nat, s: Sys, e: Event): Sys {
    Sys(Apply(JtiAxis(ttl), s.jtis, JtiStep(s, e)), Apply(VersionAxis(ttl), s.users, UserStep(s, e)),
      NextRequests(ttl, s, e))
  }

  ghost predicate Follows(ttl: nat, s: Sys, e: Event, s': Sys) { s' == Next(ttl, s, e) }

  ghost predicate Run(ttl: nat, states: seq<Sys>, run: seq<Event>) {
    |states| == |run| + 1 && forall i :: 0 <= i < |run| ==> Follows(ttl, states[i], run[i], states[i + 1])
  }

  // ------------------------------------------------------------------
  // The run as each axis sees it
  // ------------------------------------------------------------------

  function JtiRun(states: seq<Sys>, run: seq<Event>): seq<Step<Jti, bool>>
    requires |states| == |run| + 1
  {
    seq(|run|, i requires 0 <= i < |run| => JtiStep(states[i], run[i]))
  }

  function UserRun(states: seq<Sys>, run: seq<Event>): seq<Step<UserId, int>>
    requires |states| == |run| + 1
  {
    seq(|run|, i requires 0 <= i < |run| => UserStep(states[i], run[i]))
  }

  lemma {:induction false} JtiAxisFollows(ttl: nat, states: seq<Sys>, run: seq<Event>, n: nat)
    requires Run(ttl, states, run) && n <= |run|
    ensures After(JtiAxis(ttl), states[0].jtis, JtiRun(states, run), n) == states[n].jtis
  {
    if n > 0 {
      JtiAxisFollows(ttl, states, run, n - 1);
      assert Follows(ttl, states[n - 1], run[n - 1], states[n]);
    }
  }

  lemma {:induction false} UserAxisFollows(ttl: nat, states: seq<Sys>, run: seq<Event>, n: nat)
    requires Run(ttl, states, run) && n <= |run|
    ensures After(VersionAxis(ttl), states[0].users, UserRun(states, run), n) == states[n].users
  {
    if n > 0 {
      UserAxisFollows(ttl, states, run, n - 1);
      assert Follows(ttl, states[n - 1], run[n - 1], states[n]);
    }
  }

  function Clock(states: seq<Sys>, n: nat): Time
    requires n < |states|
  {
    states[n].jtis.now
  }

  lemma {:induction false} ClockAdvances(ttl: nat, states: seq<Sys>, run: seq<Event>, m: nat, n: nat)
    requires Run(ttl, states, run) && m <= n <= |run|
    ensures Clock(states, m) <= Clock(states, n)
  {
    if m < n {
      ClockAdvances(ttl, states, run, m, n - 1);
      ClockGrows(ttl, states[n - 1], run[n - 1], states[n]);
    }
  }

  lemma ClockGrows(ttl: nat, s: Sys, e: Event, s': Sys)
    requires Follows(ttl, s, e, s')
    ensures s.jtis.now <= s'.jtis.now
  {
  }

  // ------------------------------------------------------------------
  // Requests and their flights
  // ------------------------------------------------------------------

  predicate JtiFits(s: Sys, t: Task) {
    && (t in s.jtis.flights <==> t in s.requests && s.requests[t].CheckingJti?)
    && (t in s.jtis.flights ==> s.jtis.flights[t].key == s.requests[t].claims.jti && !s.requests[t].claims.apiKey)
  }

  predicate VersionFits(s: Sys, t: Task) {
    && (t in s.users.flights <==> t in s.requests && s.requests[t].CheckingVersion?)
    && (t in s.users.flights ==> Some(s.users.flights[t].key) == s.requests[t].claims.userId)
    && (t in s.requests && (s.requests[t].Cleared? || s.requests[t].CheckingVersion?) ==>
      s.requests[t].claims.userId.Some?)
  }

  predicate PhaseFits(s: Sys, t: Task) { JtiFits(s, t) && VersionFits(s, t) }

  // A store read in flight belongs to the request that waits for it.
  ghost predicate Consistent(s: Sys) {
    s.jtis.now == s.users.now && forall t :: PhaseFits(s, t)
  }

  lemma JtiFitsStep(ttl: nat, s: Sys, e: Event, t: Task)
    requires JtiFits(s, t)
    ensures JtiFits(Next(ttl, s, e), t)
  {
  }

  lemma VersionFitsStep(ttl: nat, s: Sys, e: Event, t: Task)
    requires VersionFits(s, t)
    ensures VersionFits(Next(ttl, s, e), t)
  {
  }

  lemma ConsistentStep(ttl: nat, s: Sys, e: Event)
    requires Consistent(s)
    ensures Consistent(Next(ttl, s, e))
  {
    forall t ensures PhaseFits(Next(ttl, s, e), t) {
      assert PhaseFits(s, t);
      JtiFitsStep(ttl, s, e, t);
      VersionFitsStep(ttl, s, e, t);
    }
    SameClock(ttl, s, e);
  }

  lemma SameClock(ttl: nat, s: Sys, e: Event)
    requires s.jtis.now == s.users.now
    ensures Next(ttl, s, e).jtis.now == Next(ttl, s, e).users.now
  {
  }

  lemma {:induction false} ConsistentAlways(ttl: nat, states: seq<Sys>, run: seq<Event>, n: nat)
    requires Run(ttl, states, run) && Consistent(states[0]) && n <= |run|
    ensures Consistent(states[n])
  {
    if n > 0 {
      ConsistentAlways(ttl, states, run, n - 1);
      assert Follows(ttl, states[n - 1], run[n - 1], states[n]);
      ConsistentStep(ttl, states[n - 1], run[n - 1]);
    }
  }

  // Nothing cached and no request under way.
  ghost predicate Idle(s: Sys) {
    Starts(s.jtis) && Starts(s.users) && s.requests == map[] && s.jtis.now == s.users.now
  }

  predicate PastJti(s: Sys, t: Task, claims: Claims) {
    t in s.requests && (s.requests[t] == Cleared(claims) || s.requests[t] == CheckingVersion(claims))
  }

  // An event accepts a request that carries `claims` and did not come with an API key.
  ghost predicate Accepts(s: Sys, s': Sys, t: Task, claims: Claims) {
    PastJti(s, t, claims) && t in s'.requests && s'.requests[t] == Decided(Accepted)
  }

  ghost predicate JtiReplies(ttl: nat, s: Sys, e: Event, jti: Jti, revoked: bool) {
    Reply(JtiAxis(ttl), s.jtis, JtiStep(s, e)) == Some((jti, Some(revoked)))
  }

  ghost predicate VersionReplies(ttl: nat, s: Sys, e: Event, user: UserId, version: int) {
    Reply(VersionAxis(ttl), s.users, UserStep(s, e)) == Some((user, Some(version)))
  }

  // Acceptance is the version axis answering with the token's version.
  lemma AcceptanceIsReply(ttl: nat, s: Sys, e: Event, t: Task, claims: Claims)
    requires Consistent(s) && Accepts(s, Next(ttl, s, e), t, claims)
    ensures claims.userId.Some? && VersionReplies(ttl, s, e, claims.userId.value, claims.tv)
  {
    assert PhaseFits(s, t);
  }

  lemma ClearanceIsReply(ttl: nat, s: Sys, e: Event, t: Task, claims: Claims)
    requires Consistent(s) && !PastJti(s, t, claims) && PastJti(Next(ttl, s, e), t, claims)
    ensures JtiReplies(ttl, s, e, claims.jti, false) && !claims.apiKey
    ensures e == RecordJti(t) || e == Begin(t, claims)
  {
    assert PhaseFits(s, t);
  }

  // Step p is where the request is cleared on the jti axis.
  ghost predicate ClearedAt(ttl: nat, states: seq<Sys>, run: seq<Event>, p: nat, t: Task, claims: Claims)
    requires |states| == |run| + 1 && p < |run|
  {
    && !PastJti(states[p], t, claims) && PastJti(states[p + 1], t, claims)
    && JtiReplies(ttl, states[p], run[p], claims.jti, false)
    && (run[p] == RecordJti(t) || run[p] == Begin(t, claims))
  }

  // A request past the jti axis was cleared there at some earlier step.
  lemma {:induction false} ClearedEarlier(ttl: nat, states: seq<Sys>, run: seq<Event>, n: nat, t: Task, claims: Claims)
    returns (p: nat)
    requires Run(ttl, states, run) && Consistent(states[0]) && t !in states[0].requests && n <= |run|
    requires PastJti(states[n], t, claims)
    ensures p < n && ClearedAt(ttl, states, run, p, t, claims)
  {
    if PastJti(states[n - 1], t, claims) {
      p := ClearedEarlier(ttl, states, run, n - 1, t, claims);
    } else {
      p := n - 1;
      ConsistentAlways(ttl, states, run, p);
      assert Follows(ttl, states[p], run[p], states[n]);
      ClearanceIsReply(ttl, states[p], run[p], t, claims);
    }
  }

  // ------------------------------------------------------------------
  // A request with nobody in between
  // ------------------------------------------------------------------

  function Play(ttl: nat, s: Sys, events: seq<Event>): Sys
    decreases |events|
  {
    if events == [] then s else Play(ttl, Next(ttl, s, events[0]), events[1..])
  }

  lemma PlayOn(ttl: nat, s: Sys, e: Event, rest: seq<Event>)
    ensures Play(ttl, s, [e] + rest) == Play(ttl, Next(ttl, s, e), rest)
  {
    assert ([e] + rest)[1..] == rest;
  }

  lemma PlayOne(ttl: nat, s: Sys, e: Event)
    ensures Play(ttl, s, [e]) == Next(ttl, s, e)
  {
    assert [e][1..] == [];
  }

  lemma PlayThree(ttl: nat, s: Sys, a: Event, b: Event, c: Event)
    ensures Play(ttl, s, [a, b, c]) == Next(ttl, Next(ttl, Next(ttl, s, a), b), c)
  {
    assert [a, b, c] == [a] + [b, c] && [b, c] == [b] + [c];
    PlayOn(ttl, s, a, [b, c]);
    PlayOn(ttl, Next(ttl, s, a), b, [c]);
    PlayOne(ttl, Next(ttl, Next(ttl, s, a), b), c);
  }

  // The jti axis of one request, alone: `delay` passes between its store read and its record, if it
  // needs the store, which may fail.
  function JtiEvents(ttl: nat, s: Sys, t: Task, claims: Claims, fails: bool, delay: nat): seq<Event> {
    [Begin(t, claims)] +
      if claims.apiKey || Lookup(ttl, s.jtis.cache, claims.jti, s.jtis.now).Some? then [] else JtiMiss(t, fails, delay)
  }

  function JtiMiss(t: Task, fails: bool, delay: nat): seq<Event> {
    if fails then [FailJti(t)] else [ReadJti(t), Advance(delay), RecordJti(t)]
  }

  // And its version axis, `wait` later, if it has been cleared.
  function VersionEvents(ttl: nat, s: Sys, t: Task, wait: nat, fails: bool, delay: nat): seq<Event> {
    if t !in s.requests || !s.requests[t].Cleared? || s.requests[t].claims.userId.None? then []
    else
      [Advance(wait)] + ([AskVersion(t)] +
        if Lookup(ttl, s.users.cache, s.requests[t].claims.userId.value, s.users.now + wait).Some? then []
        else VersionMiss(t, fails, delay))
  }

  function VersionMiss(t: Task, fails: bool, delay: nat): seq<Event> {
    if fails then [FailVersion(t)] else [ReadVersion(t), Advance(delay), RecordVersion(t)]
  }

  // What the stores answer such a request, if they do not fail.
  function FindAnswer(s: Sys, jti: Jti, fails: bool): Result<bool, ()> {
    if fails then Err(()) else Ok(jti in s.jtis.store && s.jtis.store[jti])
  }

  function VersionAnswer(s: Sys, user: Option<UserId>, fails: bool): Result<Option<int>, ()> {
    if fails then Err(())
    else Ok(if user.Some? && user.value in s.users.store then Some(s.users.store[user.value]) else None)
  }

  // Where a request stands once its jti axis is done.
  function PhaseAfterJti(claims: Claims, first: Result<Option<bool>, ()>): Phase {
    if claims.apiKey then Decided(Accepted)
    else if first.Err? then Decided(Unavailable)
    else if first == Ok(Some(false)) && claims.userId.Some? then Cleared(claims)
    else Decided(Unauthorized)
  }

  function PhaseAfterVersion(claims: Claims, second: Result<Option<int>, ()>): Phase {
    Decided(if second.Err? then Unavailable else if second == Ok(Some(claims.tv)) then Accepted else Unauthorized)
  }

  function Widen(find: Result<bool, ()>): Result<Option<bool>, ()> {
    if find.Ok? then Ok(Some(find.value)) else Err(())
  }

  // The jti axis is done, in state `s1`, and the version axis is as it was.
  ghost predicate JtiDone(ttl: nat, s: Sys, s1: Sys, t: Task, claims: Claims, find: Result<bool, ()>, delay: nat) {
    var known := Lookup(ttl, s.jtis.cache, claims.jti, s.jtis.now);
    && t in s1.requests && s1.users.(now := s.users.now) == s.users && s1.users.now == s1.jtis.now
    && s1.requests[t] == PhaseAfterJti(claims, Consult(known, Widen(find)))
    && s1.jtis.cache == if !claims.apiKey && known.None? && find.Ok?
         then s.jtis.cache[claims.jti := Entry(find.value, s.jtis.now + delay)] else s.jtis.cache
  }

  // The version axis is done, in state `s2`, and the jti cache is as it was.
  ghost predicate VersionDone(ttl: nat, s: Sys, s2: Sys, t: Task, claims: Claims, version: Result<Option<int>, ()>,
                              delay: nat)
    requires claims.userId.Some?
  {
    var known := Lookup(ttl, s.users.cache, claims.userId.value, s.users.now);
    && t in s2.requests && s2.jtis.cache == s.jtis.cache
    && s2.requests[t] == PhaseAfterVersion(claims, Consult(known, version))
    && s2.users.cache == if known.None? && version.Ok? && version.value.Some?
         then s.users.cache[claims.userId.value := Entry(version.value.value, s.users.now + delay)] else s.users.cache
  }

  lemma JtiMissChecks(ttl: nat, s: Sys, t: Task, claims: Claims, fails: bool, delay: nat)
    requires t in s.requests && s.requests[t] == CheckingJti(claims) && s.users.now == s.jtis.now
    requires t in s.jtis.flights && s.jtis.flights[t] == Reading(claims.jti)
    ensures var s1, find := Play(ttl, s, JtiMiss(t, fails, delay)), FindAnswer(s, claims.jti, fails);
      && t in s1.requests && s1.users.(now := s.users.now) == s.users && s1.users.now == s1.jtis.now
      && s1.requests[t] == (if find.Err? then Decided(Unavailable) else AfterJti(claims, Some(find.value)))
      && s1.jtis.cache == if find.Ok? then s.jtis.cache[claims.jti := Entry(find.value, s.jtis.now + delay)]
           else s.jtis.cache
  {
    if fails {
      PlayOne(ttl, s, FailJti(t));
    } else {
      var read := Next(ttl, s, ReadJti(t));
      var late := Next(ttl, read, Advance(delay));
      assert late.requests[t] == CheckingJti(claims) && t in late.jtis.flights;
      PlayThree(ttl, s, ReadJti(t), Advance(delay), RecordJti(t));
    }
  }

  lemma JtiAloneChecks(ttl: nat, s: Sys, t: Task, claims: Claims, fails: bool, delay: nat)
    requires Consistent(s) && t !in s.requests
    ensures JtiDone(ttl, s, Play(ttl, s, JtiEvents(ttl, s, t, claims, fails, delay)), t, claims,
      FindAnswer(s, claims.jti, fails), delay)
  {
    assert PhaseFits(s, t);
    var asked := Next(ttl, s, Begin(t, claims));
    if asked.requests[t].CheckingJti? {
      JtiMissChecks(ttl, asked, t, claims, fails, delay);
      PlayOn(ttl, s, Begin(t, claims), JtiMiss(t, fails, delay));
    } else {
      PlayOn(ttl, s, Begin(t, claims), []);
    }
  }

  lemma VersionMissChecks(ttl: nat, s: Sys, t: Task, claims: Claims, fails: bool, delay: nat)
    requires t in s.requests && s.requests[t] == CheckingVersion(claims) && claims.userId.Some?
    requires t in s.users.flights && s.users.flights[t] == Reading(claims.userId.value)
    ensures var s2, version := Play(ttl, s, VersionMiss(t, fails, delay)), VersionAnswer(s, claims.userId, fails);
      && t in s2.requests && s2.jtis.cache == s.jtis.cache && s2.requests[t] == PhaseAfterVersion(claims, version)
      && s2.users.cache == if version.Ok? && version.value.Some?
           then s.users.cache[claims.userId.value := Entry(version.value.value, s.users.now + delay)] else s.users.cache
  {
    if fails {
      PlayOne(ttl, s, FailVersion(t));
    } else {
      var read := Next(ttl, s, ReadVersion(t));
      var late := Next(ttl, read, Advance(delay));
      assert late.requests[t] == CheckingVersion(claims) && t in late.users.flights;
      PlayThree(ttl, s, ReadVersion(t), Advance(delay), RecordVersion(t));
    }
  }

  // From the moment the version axis is asked.
  lemma VersionAskedChecks(ttl: nat, s: Sys, t: Task, claims: Claims, fails: bool, delay: nat)
    requires t !in s.users.flights && t in s.requests && s.requests[t] == Cleared(claims) && claims.userId.Some?
    ensures var rest := if Lookup(ttl, s.users.cache, claims.userId.value, s.users.now).Some? then []
      else VersionMiss(t, fails, delay);
      VersionDone(ttl, s, Play(ttl, s, [AskVersion(t)] + rest), t, claims, VersionAnswer(s, claims.userId, fails),
        delay)
  {
    var asked := Next(ttl, s, AskVersion(t));
    if asked.requests[t].CheckingVersion? {
      assert asked.users.flights[t] == Reading(claims.userId.value);
      VersionMissChecks(ttl, asked, t, claims, fails, delay);
      PlayOn(ttl, s, AskVersion(t), VersionMiss(t, fails, delay));
    } else {
      PlayOn(ttl, s, AskVersion(t), []);
    }
  }

  // `s2` is where the version axis leaves a request whose jti axis was done in `s1`, `wait` before.
  ghost predicate VersionDoneIfCleared(ttl: nat, s1: Sys, s2: Sys, t: Task, claims: Claims,
                                       version: Result<Option<int>, ()>, wait: nat, delay: nat)
    requires t in s1.requests
  {
    if s1.requests[t] == Cleared(claims) && claims.userId.Some?
    then VersionDone(ttl, s1.(users := s1.users.(now := s1.users.now + wait)), s2, t, claims, version, delay)
    else s2 == s1
  }

  lemma VersionAloneChecks(ttl: nat, s1: Sys, t: Task, claims: Claims, wait: nat, fails: bool, delay: nat)
    requires t !in s1.users.flights && t in s1.requests && s1.users.now == s1.jtis.now
    requires s1.requests[t].Cleared? ==> s1.requests[t] == Cleared(claims) && claims.userId.Some?
    ensures VersionDoneIfCleared(ttl, s1, Play(ttl, s1, VersionEvents(ttl, s1, t, wait, fails, delay)), t, claims,
      VersionAnswer(s1, claims.userId, fails), wait, delay)
  {
    if s1.requests[t].Cleared? {
      var later := Next(ttl, s1, Advance(wait));
      assert later == s1.(jtis := s1.jtis.(now := s1.jtis.now + wait), users := s1.users.(now := s1.users.now + wait));
      VersionAskedChecks(ttl, later, t, claims, fails, delay);
      var rest := if Lookup(ttl, s1.users.cache, claims.userId.value, s1.users.now + wait).Some? then []
        else VersionMiss(t, fails, delay);
      PlayOn(ttl, s1, Advance(wait), [AskVersion(t)] + rest);
    }
  }

  // The two axes, one after the other, are the check.
  lemma AxesAreChecked(ttl: nat, s: Sys, s1: Sys, s2: Sys, t: Task, claims: Claims, find: Result<bool, ()>,
                       version: Result<Option<int>, ()>, delay1: nat, wait: nat, delay2: nat)
    requires s.users.now == s.jtis.now && JtiDone(ttl, s, s1, t, claims, find, delay1)
    requires VersionDoneIfCleared(ttl, s1, s2, t, claims, version, wait, delay2)
    ensures IsChecked(ttl, s, s2, t, claims,
      World(s.jtis.now, s.jtis.now + delay1, s1.jtis.now + wait, s1.jtis.now + wait + delay2, find, version))
  {
  }

  // In `s2` the request has the verdict of the check, and the caches are as the check leaves them.
  ghost predicate IsChecked(ttl: nat, s: Sys, s2: Sys, t: Task, claims: Claims, w: World) {
    var checked := Judge(ttl, s.jtis.cache, s.users.cache, claims, w);
    t in s2.requests && s2.requests[t] == Decided(checked.verdict) &&
    s2.jtis.cache == checked.revoked && s2.users.cache == checked.tokenVersions
  }

  /** A whole request with nobody in between ends with the verdict of CheckJwtRevocation, and leaves both
      caches as it does. */
  lemma UndisturbedIsChecked(ttl: nat, s: Sys, t: Task, claims: Claims, fails1: bool, delay1: nat, wait: nat,
                             fails2: bool, delay2: nat)
    requires Consistent(s) && t !in s.requests
    ensures var s1 := Play(ttl, s, JtiEvents(ttl, s, t, claims, fails1, delay1));
      IsChecked(ttl, s, Play(ttl, s1, VersionEvents(ttl, s1, t, wait, fails2, delay2)), t, claims,
        World(s.jtis.now, s.jtis.now + delay1, s1.jtis.now + wait, s1.jtis.now + wait + delay2,
          FindAnswer(s, claims.jti, fails1), VersionAnswer(s, claims.userId, fails2)))
  {
    assert PhaseFits(s, t);
    JtiAloneChecks(ttl, s, t, claims, fails1, delay1);
    var s1 := Play(ttl, s, JtiEvents(ttl, s, t, claims, fails1, delay1));
    VersionHalf(ttl, s, s1, t, claims, FindAnswer(s, claims.jti, fails1), delay1, wait, fails2, delay2);
  }

  lemma VersionHalf(ttl: nat, s: Sys, s1: Sys, t: Task, claims: Claims, find: Result<bool, ()>, delay1: nat, wait: nat,
                    fails2: bool, delay2: nat)
    requires s.users.now == s.jtis.now && t !in s.users.flights && JtiDone(ttl, s, s1, t, claims, find, delay1)
    ensures IsChecked(ttl, s, Play(ttl, s1, VersionEvents(ttl, s1, t, wait, fails2, delay2)), t, claims,
      World(s.jtis.now, s.jtis.now + delay1, s1.jtis.now + wait, s1.jtis.now + wait + delay2, find,
        VersionAnswer(s, claims.userId, fails2)))
  {
    VersionAloneChecks(ttl, s1, t, claims, wait, fails2, delay2);
    AxesAreChecked(ttl, s, s1, Play(ttl, s1, VersionEvents(ttl, s1, t, wait, fails2, delay2)), t, claims, find,
      VersionAnswer(s, claims.userId, fails2), delay1, wait, delay2);
  }

  // ------------------------------------------------------------------
  // Bounded staleness of accepted requests
  // ------------------------------------------------------------------

  // The delay between the store read at step i and the record at step j.
  function Lag(states: seq<Sys>, i: nat, j: nat): int
    requires i <= j < |states|
  {
    Clock(states, j) - Clock(states, i)
  }

  lemma OnlyRevocations(states: seq<Sys>, run: seq<Event>, from: nat, jti: Jti)
    requires |states| == |run| + 1
    ensures OnlyWrites(JtiRun(states, run), from, jti, v => v)
  {
  }

  // The jti answer at step p was read at step i and recorded at step j, in the sense of AnsweredBy.
  ghost predicate JtiAnsweredBy(ttl: nat, states: seq<Sys>, run: seq<Event>, i: nat, j: nat, p: nat, jti: Jti)
    requires |states| == |run| + 1 && j <= p < |run|
  {
    AnsweredBy(JtiAxis(ttl), states[0].jtis, JtiRun(states, run), i, j, p, jti, Some(false))
  }

  ghost predicate VersionAnsweredBy(ttl: nat, states: seq<Sys>, run: seq<Event>, i: nat, j: nat, n: nat,
                                    user: UserId, tv: int)
    requires |states| == |run| + 1 && j <= n < |run|
  {
    AnsweredBy(VersionAxis(ttl), states[0].users, UserRun(states, run), i, j, n, user, Some(tv))
  }

  lemma JtiReplyOrigin(ttl: nat, states: seq<Sys>, run: seq<Event>, p: nat, jti: Jti) returns (i: nat, j: nat)
    requires Run(ttl, states, run) && Idle(states[0]) && p < |run| && JtiReplies(ttl, states[p], run[p], jti, false)
    ensures i < j <= p && JtiAnsweredBy(ttl, states, run, i, j, p, jti)
    ensures j == p || Clock(states, p) - Clock(states, j) < ttl
  {
    JtiAxisFollows(ttl, states, run, p);
    i, j := AnswerOrigin(JtiAxis(ttl), states[0].jtis, JtiRun(states, run), p);
    JtiAxisFollows(ttl, states, run, j);
  }

  lemma RevokedReply(ttl: nat, states: seq<Sys>, run: seq<Event>, r: nat, p: nat, jti: Jti) returns (i: nat, j: nat)
    requires Run(ttl, states, run) && Idle(states[0]) && r <= p < |run| &&
      JtiReplies(ttl, states[p], run[p], jti, false)
    requires jti in states[r].jtis.store && states[r].jtis.store[jti]
    ensures i < r && i < j <= p && JtiAnsweredBy(ttl, states, run, i, j, p, jti)
    ensures Clock(states, p) - Clock(states, r) < (if j == p then 1 else ttl) + Lag(states, i, j)
  {
    JtiAxisFollows(ttl, states, run, r);
    JtiAxisFollows(ttl, states, run, p);
    OnlyRevocations(states, run, r, jti);
    i, j := RevokedTokenClears(ttl, states[0].jtis, JtiRun(states, run), jti, r, p);
    JtiAxisFollows(ttl, states, run, i);
    JtiAxisFollows(ttl, states, run, j);
  }

  /** If a token's jti is revoked by step r and a request with it is accepted at step n, then the
      answer that cleared it at step p had been read from the store at step i, before r, and the time
      in between is below the TTL, plus the delay of that read to its record at step j, plus what
      passed from the answer to the acceptance. */
  lemma AcceptedAfterRevocation(ttl: nat, states: seq<Sys>, run: seq<Event>, r: nat, n: nat, t: Task, claims: Claims)
    returns (i: nat, j: nat, p: nat)
    requires Run(ttl, states, run) && Idle(states[0]) && r <= n < |run| && Accepts(states[n], states[n + 1], t, claims)
    requires claims.jti in states[r].jtis.store && states[r].jtis.store[claims.jti]
    ensures i < r && i < j <= p < n
    ensures ClearedAt(ttl, states, run, p, t, claims) && JtiAnsweredBy(ttl, states, run, i, j, p, claims.jti)
    ensures Clock(states, n) - Clock(states, r) <
      (if j == p then 1 else ttl) + Lag(states, i, j) + (Clock(states, n) - Clock(states, p))
  {
    p := ClearedEarlier(ttl, states, run, n, t, claims);
    if r <= p {
      i, j := RevokedReply(ttl, states, run, r, p, claims.jti);
    } else {
      i, j := JtiReplyOrigin(ttl, states, run, p, claims.jti);
      ClockAdvances(ttl, states, run, p, r);
      ClockAdvances(ttl, states, run, i, j);
      ClockAdvances(ttl, states, run, j, p);
    }
  }

  // From step r on the user's version in the store is another than `tv`.
  ghost predicate Retired(states: seq<Sys>, run: seq<Event>, r: nat, user: UserId, tv: int)
    requires r < |states|
  {
    && user in states[r].users.store && states[r].users.store[user] != tv
    && forall m :: r <= m < |run| && run[m].SetVersion? && run[m].user == user ==> run[m].version != tv
  }

  lemma OnlyOtherVersions(states: seq<Sys>, run: seq<Event>, r: nat, user: UserId, tv: int)
    requires |states| == |run| + 1 && r <= |run| && Retired(states, run, r, user, tv)
    ensures OnlyWrites(UserRun(states, run), r, user, v => v != tv)
  {
  }

  lemma RetiredReply(ttl: nat, states: seq<Sys>, run: seq<Event>, r: nat, n: nat, user: UserId, tv: int)
    returns (i: nat, j: nat)
    requires Run(ttl, states, run) && Idle(states[0]) && r <= n < |run| &&
      VersionReplies(ttl, states[n], run[n], user, tv)
    requires Retired(states, run, r, user, tv)
    ensures i < r && i < j <= n && VersionAnsweredBy(ttl, states, run, i, j, n, user, tv)
    ensures states[n].users.now - states[r].users.now <
      (if j == n then 1 else ttl) + (states[j].users.now - states[i].users.now)
  {
    UserAxisFollows(ttl, states, run, r);
    UserAxisFollows(ttl, states, run, n);
    OnlyOtherVersions(states, run, r, user, tv);
    i, j := RetiredVersionMatches(ttl, states[0].users, UserRun(states, run), user, tv, r, n);
    UserAxisFollows(ttl, states, run, i);
    UserAxisFollows(ttl, states, run, j);
  }

  /** If a token's version is no longer its user's from step r on and a request with it is accepted
      at step n, then the version answered had been read from the store at step i, before r, and the
      time in between is below the TTL plus the delay of that read to its record at step j: the
      version is answered last. */
  lemma AcceptedWithRetiredVersion(ttl: nat, states: seq<Sys>, run: seq<Event>, r: nat, n: nat, t: Task, claims: Claims)
    returns (i: nat, j: nat)
    requires Run(ttl, states, run) && Idle(states[0]) && r <= n < |run| && Accepts(states[n], states[n + 1], t, claims)
    requires claims.userId.Some? && Retired(states, run, r, claims.userId.value, claims.tv)
    ensures i < r && i < j <= n && VersionAnsweredBy(ttl, states, run, i, j, n, claims.userId.value, claims.tv)
    ensures Clock(states, n) - Clock(states, r) < (if j == n then 1 else ttl) + Lag(states, i, j)
  {
    ConsistentAlways(ttl, states, run, n);
    assert Follows(ttl, states[n], run[n], states[n + 1]);
    AcceptanceIsReply(ttl, states[n], run[n], t, claims);
    i, j := RetiredReply(ttl, states, run, r, n, claims.userId.value, claims.tv);
    ConsistentAlways(ttl, states, run, r);
    ConsistentAlways(ttl, states, run, i);
    ConsistentAlways(ttl, states, run, j);
  }

  // A cleared request whose user is not cached is judged by the store.
  lemma JudgedByStore(ttl: nat, s: Sys, t: Task, claims: Claims)
    requires t in s.requests && s.requests[t] == Cleared(claims) && t !in s.users.flights
    requires claims.userId.Some? && claims.userId.value !in s.users.cache
    requires claims.userId.value in s.users.store && s.users.store[claims.userId.value] == claims.tv
    ensures var s' := Next(ttl, Next(ttl, s, AskVersion(t)), ReadVersion(t));
      t in s'.requests && s'.requests[t] == CheckingVersion(claims) &&
      t in Next(ttl, s', RecordVersion(t)).requests && Next(ttl, s', RecordVersion(t)).requests[t] == Decided(Accepted)
  {
    var s1 := Next(ttl, s, AskVersion(t));
    assert s1.users.flights[t] == Reading(claims.userId.value) && s1.requests[t] == CheckingVersion(claims);
    var s2 := Next(ttl, s1, ReadVersion(t));
    assert s2.users.flights[t] == Read(claims.userId.value, Some(claims.tv), s1.users.now);
  }

  // The token is good but for what the run does to it, and nothing is cached or under way.
  ghost predicate GoodToken(s: Sys, claims: Claims) {
    && Idle(s) && !claims.apiKey && (claims.jti in s.jtis.store ==> !s.jtis.store[claims.jti])
    && claims.userId.Some? && claims.userId.value in s.users.store && s.users.store[claims.userId.value] == claims.tv
  }

  // One request reads the jti before the revocation and records it `lag` later.
  function SlowReading(lag: nat, claims: Claims): seq<Event> {
    [Begin(0, claims), ReadJti(0), Revoke(claims.jti), Advance(lag), RecordJti(0)]
  }

  // Another is cleared by that entry at its last moment, and accepted `wait` after that.
  function LateClearance(ttl: nat, wait: nat, claims: Claims): seq<Event>
    requires ttl >= 1
  {
    [Advance(ttl - 1), Begin(1, claims), Advance(wait), AskVersion(1), ReadVersion(1), RecordVersion(1)]
  }

  lemma RunConcat(ttl: nat, a: seq<Sys>, first: seq<Event>, b: seq<Sys>, second: seq<Event>)
    requires Run(ttl, a, first) && Run(ttl, b, second) && a[|first|] == b[0]
    ensures Run(ttl, a + b[1..], first + second)
  {
    var states, run := a + b[1..], first + second;
    forall m | 0 <= m < |run| ensures Follows(ttl, states[m], run[m], states[m + 1]) {
      if m < |first| {
        assert Follows(ttl, a[m], first[m], a[m + 1]);
      } else {
        assert Follows(ttl, b[m - |first|], second[m - |first|], b[m - |first| + 1]);
      }
    }
  }

  // What the slow reader does to the jti axis.
  ghost predicate ReadsSlowly(states: seq<Sys>, lag: nat, jti: Jti) {
    && |states| >= 6 && var start := states[0].jtis;
    && states[1].jtis == start.(flights := map[0 := Reading(jti)])
    && states[2].jtis == start.(flights := map[0 := Read(jti, Some(false), start.now)])
    && states[3].jtis == states[2].jtis.(store := start.store[jti := true])
    && states[4].jtis == states[3].jtis.(now := start.now + lag)
    && states[5].jtis == Axis(start.now + lag, states[3].jtis.store, map[jti := Entry(false, start.now + lag)], map[])
  }

  lemma SlowReadingRuns(ttl: nat, s: Sys, lag: nat, claims: Claims) returns (states: seq<Sys>)
    requires GoodToken(s, claims)
    ensures Run(ttl, states, SlowReading(lag, claims)) && states[0] == s && ReadsSlowly(states, lag, claims.jti)
    ensures states[5].requests == map[0 := Cleared(claims)] && states[5].users.(now := s.users.now) == s.users
  {
    var run := SlowReading(lag, claims);
    var s1 := Next(ttl, s, run[0]);
    var s2 := Next(ttl, s1, run[1]);
    var s3 := Next(ttl, s2, run[2]);
    var s4 := Next(ttl, s3, run[3]);
    assert s4.jtis.flights - {0} == map[] && s4.requests == map[0 := CheckingJti(claims)];
    states := [s, s1, s2, s3, s4, Next(ttl, s4, run[4])];
  }

  lemma LateClearanceRuns(ttl: nat, s: Sys, wait: nat, claims: Claims) returns (states: seq<Sys>)
    requires ttl >= 1 && !claims.apiKey && claims.userId.Some? && s.requests == map[0 := Cleared(claims)]
    requires s.jtis.flights == map[] && s.jtis.cache == map[claims.jti := Entry(false, s.jtis.now)]
    requires Starts(s.users) && claims.userId.value in s.users.store && s.users.store[claims.userId.value] == claims.tv
    ensures Run(ttl, states, LateClearance(ttl, wait, claims)) && states[0] == s
    ensures Accepts(states[5], states[6], 1, claims) && 1 !in states[1].requests
    ensures states[1].jtis == s.jtis.(now := s.jtis.now + ttl - 1) && states[5].jtis.now == s.jtis.now + ttl - 1 + wait
  {
    var run := LateClearance(ttl, wait, claims);
    var s1 := Next(ttl, s, run[0]);
    var s2 := Next(ttl, s1, run[1]);
    assert s2.requests[1] == Cleared(claims);
    var s3 := Next(ttl, s2, run[2]);
    JudgedByStore(ttl, s3, 1, claims);
    var s4 := Next(ttl, s3, run[3]);
    var s5 := Next(ttl, s4, run[4]);
    states := [s, s1, s2, s3, s4, s5, Next(ttl, s5, run[5])];
  }

  // What a request carried from step i to step j and the cache then kept up to step p.
  ghost predicate CarriedAndKept<K, V>(axes: seq<Axis<K, V>>, t: Task, i: nat, j: nat, p: nat, key: K, value: V) {
    && i < j <= p < |axes|
    && (forall m :: i < m <= j ==>
          t in axes[m].flights && axes[m].flights[t] == Read(key, Some(value), axes[i].now))
    && (forall m :: j < m <= p ==> key in axes[m].cache && axes[m].cache[key] == Entry(value, axes[j].now))
  }

  // The runs of both axes, seen from whole states.
  lemma SeenAnswer<K, V>(cfg: Config<V>, axes: seq<Axis<K, V>>, run: seq<Step<K, V>>, t: Task, i: nat, j: nat, p: nat,
                         key: K, value: V)
    requires |axes| == |run| + 1 && p < |run| && CarriedAndKept(axes, t, i, j, p, key, value)
    requires forall m :: 0 <= m <= p ==> After(cfg, axes[0], run, m) == axes[m]
    requires run[i] == ReadStore(t) && run[j] == Record(t)
    requires t in axes[i].flights && axes[i].flights[t] == Reading(key)
    requires StoreAnswer(cfg, axes[i].store, key) == Some(value)
    requires j == p || (run[p].Ask? && axes[p].now - axes[j].now < cfg.ttl)
    ensures AnsweredBy(cfg, axes[0], run, i, j, p, key, Some(value))
  {
  }

  function JtiAxes(states: seq<Sys>): seq<Axis<Jti, bool>> {
    seq(|states|, m requires 0 <= m < |states| => states[m].jtis)
  }

  function UserAxes(states: seq<Sys>): seq<Axis<UserId, int>> {
    seq(|states|, m requires 0 <= m < |states| => states[m].users)
  }

  lemma SeenJtiAnswer(ttl: nat, states: seq<Sys>, run: seq<Event>, t: Task, i: nat, j: nat, p: nat, jti: Jti)
    requires Run(ttl, states, run) && p < |run| && CarriedAndKept(JtiAxes(states), t, i, j, p, jti, false)
    requires run[i] == ReadJti(t) && run[j] == RecordJti(t)
    requires t in states[i].jtis.flights && states[i].jtis.flights[t] == Reading(jti)
    requires StoreAnswer(JtiAxis(ttl), states[i].jtis.store, jti) == Some(false)
    requires j == p || (JtiStep(states[p], run[p]).Ask? && Clock(states, p) - Clock(states, j) < ttl)
    ensures JtiAnsweredBy(ttl, states, run, i, j, p, jti)
  {
    forall m: nat | m <= p ensures After(JtiAxis(ttl), states[0].jtis, JtiRun(states, run), m) == JtiAxes(states)[m] {
      JtiAxisFollows(ttl, states, run, m);
    }
    SeenAnswer(JtiAxis(ttl), JtiAxes(states), JtiRun(states, run), t, i, j, p, jti, false);
  }

  lemma SeenVersionAnswer(ttl: nat, states: seq<Sys>, run: seq<Event>, t: Task, i: nat, j: nat, p: nat, user: UserId,
                          tv: int)
    requires Run(ttl, states, run) && p < |run| && CarriedAndKept(UserAxes(states), t, i, j, p, user, tv)
    requires run[i] == ReadVersion(t) && run[j] == RecordVersion(t)
    requires t in states[i].users.flights && states[i].users.flights[t] == Reading(user)
    requires StoreAnswer(VersionAxis(ttl), states[i].users.store, user) == Some(tv)
    requires j == p || (UserStep(states[p], run[p]).Ask? && states[p].users.now - states[j].users.now < ttl)
    ensures VersionAnsweredBy(ttl, states, run, i, j, p, user, tv)
  {
    forall m: nat | m <= p
      ensures After(VersionAxis(ttl), states[0].users, UserRun(states, run), m) == UserAxes(states)[m]
    {
      UserAxisFollows(ttl, states, run, m);
    }
    SeenAnswer(VersionAxis(ttl), UserAxes(states), UserRun(states, run), t, i, j, p, user, tv);
  }

  lemma LateRun(ttl: nat, s: Sys, lag: nat, wait: nat, claims: Claims) returns (states: seq<Sys>)
    requires ttl >= 1 && GoodToken(s, claims)
    ensures Run(ttl, states, SlowReading(lag, claims) + LateClearance(ttl, wait, claims)) && states[0] == s
    ensures ReadsSlowly(states, lag, claims.jti) && 1 !in states[6].requests
    ensures states[6].jtis == states[5].jtis.(now := states[5].jtis.now + ttl - 1)
    ensures Accepts(states[10], states[11], 1, claims) && Clock(states, 10) == Clock(states, 6) + wait
  {
    var a := SlowReadingRuns(ttl, s, lag, claims);
    var b := LateClearanceRuns(ttl, a[5], wait, claims);
    RunConcat(ttl, a, SlowReading(lag, claims), b, LateClearance(ttl, wait, claims));
    states := a + b[1..];
    assert states[6] == b[1] && states[10] == b[5] && states[11] == b[6];
  }

  /** The bound of AcceptedAfterRevocation is attained, for every delay and every wait. */
  lemma LateAcceptanceAttained(ttl: nat, s: Sys, lag: nat, wait: nat, claims: Claims) returns (states: seq<Sys>)
    requires ttl >= 1 && GoodToken(s, claims)
    ensures var run := SlowReading(lag, claims) + LateClearance(ttl, wait, claims);
      && Run(ttl, states, run) && states[0] == s && Accepts(states[10], states[11], 1, claims)
      && claims.jti in states[3].jtis.store && states[3].jtis.store[claims.jti]
      && JtiAnsweredBy(ttl, states, run, 1, 4, 6, claims.jti) && Lag(states, 1, 4) == lag
      && Clock(states, 10) - Clock(states, 6) == wait
      && Clock(states, 10) - Clock(states, 3) == ttl + lag + wait - 1
  {
    states := LateRun(ttl, s, lag, wait, claims);
    SeenLate(ttl, states, SlowReading(lag, claims) + LateClearance(ttl, wait, claims), lag, claims);
  }

  lemma SeenLate(ttl: nat, states: seq<Sys>, run: seq<Event>, lag: nat, claims: Claims)
    requires ttl >= 1 && Run(ttl, states, run) && |run| > 6 && GoodToken(states[0], claims)
    requires run[1] == ReadJti(0) && run[4] == RecordJti(0) && run[6] == Begin(1, claims)
    requires ReadsSlowly(states, lag, claims.jti)
    requires states[6].jtis == states[5].jtis.(now := states[5].jtis.now + ttl - 1)
    requires 1 !in states[6].requests
    ensures JtiAnsweredBy(ttl, states, run, 1, 4, 6, claims.jti)
  {
    assert CarriedAndKept(JtiAxes(states), 0, 1, 4, 6, claims.jti, false);
    SeenJtiAnswer(ttl, states, run, 0, 1, 4, 6, claims.jti);
  }

  // Both requests are cleared on the jti axis, the second by the first one's entry.
  function BothCleared(claims: Claims): seq<Event> {
    [Begin(0, claims), ReadJti(0), RecordJti(0), Begin(1, claims)]
  }

  // The first reads the version before it is retired and records it `lag` later.
  function SlowVersion(lag: nat, claims: Claims, next: int): seq<Event>
    requires claims.userId.Some?
  {
    [AskVersion(0), ReadVersion(0), SetVersion(claims.userId.value, next), Advance(lag), RecordVersion(0)]
  }

  // The second is judged by that entry at its last moment.
  function LateJudgement(ttl: nat): seq<Event>
    requires ttl >= 1
  {
    [Advance(ttl - 1), AskVersion(1)]
  }

  lemma BothClearedRuns(ttl: nat, s: Sys, claims: Claims) returns (states: seq<Sys>)
    requires ttl >= 1 && GoodToken(s, claims)
    ensures Run(ttl, states, BothCleared(claims)) && states[0] == s && states[4].users == s.users
    ensures states[4].requests == map[0 := Cleared(claims), 1 := Cleared(claims)] && states[4].jtis.now == s.jtis.now
  {
    var run := BothCleared(claims);
    var s1 := Next(ttl, s, run[0]);
    var s2 := Next(ttl, s1, run[1]);
    assert s2.jtis.flights - {0} == map[] && s2.requests == map[0 := CheckingJti(claims)];
    var s3 := Next(ttl, s2, run[2]);
    assert s3.requests == map[0 := Cleared(claims)];
    states := [s, s1, s2, s3, Next(ttl, s3, run[3])];
  }

  // What the slow reader does to the version axis.
  ghost predicate ReadsVersionSlowly(states: seq<Sys>, lag: nat, user: UserId, tv: int, next: int) {
    && |states| >= 6 && var start := states[0].users;
    && states[1].users == start.(flights := map[0 := Reading(user)])
    && states[2].users == start.(flights := map[0 := Read(user, Some(tv), start.now)])
    && states[3].users == states[2].users.(store := start.store[user := next])
    && states[4].users == states[3].users.(now := start.now + lag)
    && states[5].users == Axis(start.now + lag, states[3].users.store, map[user := Entry(tv, start.now + lag)], map[])
  }

  lemma SlowVersionRuns(ttl: nat, s: Sys, lag: nat, claims: Claims, next: int) returns (states: seq<Sys>)
    requires claims.userId.Some? && Starts(s.users)
    requires s.requests == map[0 := Cleared(claims), 1 := Cleared(claims)]
    requires claims.userId.value in s.users.store && s.users.store[claims.userId.value] == claims.tv
    ensures Run(ttl, states, SlowVersion(lag, claims, next)) && states[0] == s
    ensures ReadsVersionSlowly(states, lag, claims.userId.value, claims.tv, next)
    ensures 1 in states[5].requests && states[5].requests[1] == Cleared(claims)
  {
    var run := SlowVersion(lag, claims, next);
    var s1 := Next(ttl, s, run[0]);
    var s2 := Next(ttl, s1, run[1]);
    var s3 := Next(ttl, s2, run[2]);
    var s4 := Next(ttl, s3, run[3]);
    assert s4.users.flights - {0} == map[];
    assert s4.requests == map[0 := CheckingVersion(claims), 1 := Cleared(claims)];
    states := [s, s1, s2, s3, s4, Next(ttl, s4, run[4])];
  }

  lemma LateJudgementRuns(ttl: nat, s: Sys, claims: Claims) returns (states: seq<Sys>)
    requires ttl >= 1 && claims.userId.Some? && 1 in s.requests && s.requests[1] == Cleared(claims)
    requires s.users.flights == map[] && s.users.cache == map[claims.userId.value := Entry(claims.tv, s.users.now)]
    ensures Run(ttl, states, LateJudgement(ttl)) && states[0] == s
    ensures states[1].users == s.users.(now := s.users.now + ttl - 1) && UserStep(states[1], AskVersion(1)).Ask?
    ensures Accepts(states[1], states[2], 1, claims)
  {
    var run := LateJudgement(ttl);
    var s1 := Next(ttl, s, run[0]);
    states := [s, s1, Next(ttl, s1, run[1])];
  }

  lemma LateVersionRun(ttl: nat, s: Sys, lag: nat, claims: Claims, next: int) returns (states: seq<Sys>)
    requires ttl >= 1 && GoodToken(s, claims)
    ensures Run(ttl, states, BothCleared(claims) + (SlowVersion(lag, claims, next) + LateJudgement(ttl)))
    ensures states[0] == s && states[4].users == s.users
    ensures ReadsVersionSlowly(states[4..], lag, claims.userId.value, claims.tv, next)
    ensures states[10].users == states[9].users.(now := states[9].users.now + ttl - 1)
    ensures UserStep(states[10], AskVersion(1)).Ask? && Accepts(states[10], states[11], 1, claims)
  {
    var a := BothClearedRuns(ttl, s, claims);
    var b := SlowVersionRuns(ttl, a[4], lag, claims, next);
    var c := LateJudgementRuns(ttl, b[5], claims);
    RunConcat(ttl, b, SlowVersion(lag, claims, next), c, LateJudgement(ttl));
    var tail := b + c[1..];
    RunConcat(ttl, a, BothCleared(claims), tail, SlowVersion(lag, claims, next) + LateJudgement(ttl));
    states := a + tail[1..];
    assert states[4..] == tail;
    assert states[9] == tail[5] == b[5] && states[10] == tail[6] == c[1] && states[11] == tail[7] == c[2];
  }

  /** So is that of AcceptedWithRetiredVersion. */
  lemma LateJudgementAttained(ttl: nat, s: Sys, lag: nat, claims: Claims, next: int) returns (states: seq<Sys>)
    requires ttl >= 1 && GoodToken(s, claims) && next != claims.tv
    ensures var run := BothCleared(claims) + (SlowVersion(lag, claims, next) + LateJudgement(ttl));
      && Run(ttl, states, run) && states[0] == s && Accepts(states[10], states[11], 1, claims)
      && Retired(states, run, 7, claims.userId.value, claims.tv)
      && VersionAnsweredBy(ttl, states, run, 5, 8, 10, claims.userId.value, claims.tv) && Lag(states, 5, 8) == lag
      && Clock(states, 10) - Clock(states, 7) == ttl + lag - 1
  {
    var run := BothCleared(claims) + (SlowVersion(lag, claims, next) + LateJudgement(ttl));
    states := LateVersionRun(ttl, s, lag, claims, next);
    ConsistentAlways(ttl, states, run, 5);
    ConsistentAlways(ttl, states, run, 7);
    ConsistentAlways(ttl, states, run, 8);
    ConsistentAlways(ttl, states, run, 10);
    SeenLateVersion(ttl, states, run, lag, claims, next);
  }

  lemma SeenLateVersion(ttl: nat, states: seq<Sys>, run: seq<Event>, lag: nat, claims: Claims, next: int)
    requires ttl >= 1 && claims.userId.Some? && Run(ttl, states, run) && |run| > 10
    requires run[5] == ReadVersion(0) && run[8] == RecordVersion(0) && UserStep(states[10], run[10]).Ask?
    requires claims.userId.value in states[4].users.store && states[4].users.store[claims.userId.value] == claims.tv
    requires ReadsVersionSlowly(states[4..], lag, claims.userId.value, claims.tv, next)
    requires states[10].users == states[9].users.(now := states[9].users.now + ttl - 1)
    ensures VersionAnsweredBy(ttl, states, run, 5, 8, 10, claims.userId.value, claims.tv)
  {
    assert CarriedAndKept(UserAxes(states), 0, 5, 8, 10, claims.userId.value, claims.tv);
    SeenVersionAnswer(ttl, states, run, 0, 5, 8, 10, claims.userId.value, claims.tv);
  }

  // ------------------------------------------------------------------
  // Invalidation
  // ------------------------------------------------------------------

  // The jti is revoked in the store and its cache entry has been dropped.
  ghost predicate RevokedAndDropped(s: Sys, jti: Jti) {
    jti in s.jtis.store && s.jtis.store[jti] && jti !in s.jtis.cache
  }

  // A continuation of `s` accepts, at event n, a request with the claims that begins only now.
  ghost predicate AcceptsLater(ttl: nat, s: Sys, states: seq<Sys>, run: seq<Event>, n: nat, t: Task, claims: Claims) {
    Run(ttl, states, run) && states[0] == s && n < |run| && t !in s.requests &&
      Accepts(states[n], states[n + 1], t, claims)
  }

  ghost predicate RefusedFromNowOn(ttl: nat, s: Sys, claims: Claims) {
    forall states, run, n: nat, t :: !AcceptsLater(ttl, s, states, run, n, t, claims)
  }

  lemma NoneClearedAfter(ttl: nat, s: Sys, states: seq<Sys>, run: seq<Event>, n: nat, t: Task, claims: Claims)
    requires Consistent(s) && RevokedAndDropped(s, claims.jti) && NoStaleFlight(s.jtis, claims.jti, v => v)
    ensures !AcceptsLater(ttl, s, states, run, n, t, claims)
  {
    if AcceptsLater(ttl, s, states, run, n, t, claims) {
      var p := ClearedEarlier(ttl, states, run, n, t, claims);
      JtiAxisFollows(ttl, states, run, p);
      OnlyRevocations(states, run, 0, claims.jti);
      StaysClean(JtiAxis(ttl), s.jtis, JtiRun(states, run), p, claims.jti, v => v);
    }
  }

  // Without a TTL nothing is ever answered from the cache, so a request that begins now reads the
  // store itself.
  lemma NoneClearedWithoutTtl(s: Sys, states: seq<Sys>, run: seq<Event>, n: nat, t: Task, claims: Claims)
    requires Consistent(s) && RevokedAndDropped(s, claims.jti)
    ensures !AcceptsLater(0, s, states, run, n, t, claims)
  {
    if AcceptsLater(0, s, states, run, n, t, claims) {
      var p := ClearedEarlier(0, states, run, n, t, claims);
      OwnReading(states, run, p, claims.jti);
      assert PhaseFits(s, t);
      ReadAfter(states, run, p, claims.jti);
    }
  }

  // With no TTL a reply is never a hit.
  lemma OwnReading(states: seq<Sys>, run: seq<Event>, p: nat, jti: Jti)
    requires Run(0, states, run) && p < |run| && JtiReplies(0, states[p], run[p], jti, false)
    ensures run[p].RecordJti? && var t, flights := run[p].task, states[p].jtis.flights;
      t in flights && flights[t].Read? && flights[t].key == jti && flights[t].found == Some(false)
  {
  }

  lemma ReadAfter(states: seq<Sys>, run: seq<Event>, p: nat, jti: Jti)
    requires Run(0, states, run) && p < |run| && run[p].RecordJti? && run[p].task !in states[0].jtis.flights
    requires jti in states[0].jtis.store && states[0].jtis.store[jti]
    requires var t, flights := run[p].task, states[p].jtis.flights;
      t in flights && flights[t].Read? && flights[t].key == jti
    ensures states[p].jtis.flights[run[p].task].found == Some(true)
  {
    var jtis := JtiRun(states, run);
    JtiAxisFollows(0, states, run, p);
    var i := FlightOrigin(JtiAxis(0), states[0].jtis, jtis, p, run[p].task);
    OnlyRevocations(states, run, 0, jti);
    StoreStays(JtiAxis(0), states[0].jtis, jtis, 0, i, jti, v => v);
  }

  // A reader caught with an outdated answer records it, and the next request is cleared by it.
  lemma ClearedByStale(ttl: nat, s: Sys, stale: Task, t: Task, claims: Claims)
    requires Consistent(s) && ttl >= 1 && t !in s.requests && !claims.apiKey && claims.userId.Some?
    requires stale in s.jtis.flights && s.jtis.flights[stale].Read?
    requires s.jtis.flights[stale].key == claims.jti && s.jtis.flights[stale].found == Some(false)
    ensures var s' := Next(ttl, Next(ttl, s, RecordJti(stale)), Begin(t, claims));
      t in s'.requests && s'.requests[t] == Cleared(claims) && s'.users == s.users && t !in s'.users.flights
  {
    assert PhaseFits(s, t) && PhaseFits(s, stale);
    var s1 := Next(ttl, s, RecordJti(stale));
    assert s1.jtis.cache[claims.jti] == Entry(false, s1.jtis.now) && t !in s1.requests && t !in s1.jtis.flights;
    assert s1.users == s.users;
  }

  // Five events that end in the acceptance of a request with a revoked token.
  function Resurrection(stale: Task, t: Task, claims: Claims): seq<Event> {
    [RecordJti(stale), Begin(t, claims), AskVersion(t), ReadVersion(t), RecordVersion(t)]
  }

  lemma StaleFlightAccepts(ttl: nat, s: Sys, stale: Task, t: Task, claims: Claims) returns (states: seq<Sys>)
    requires Consistent(s) && ttl >= 1 && t !in s.requests && !claims.apiKey
    requires stale in s.jtis.flights && s.jtis.flights[stale].Read?
    requires s.jtis.flights[stale].key == claims.jti && s.jtis.flights[stale].found == Some(false)
    requires claims.userId.Some? && claims.userId.value !in s.users.cache
    requires claims.userId.value in s.users.store && s.users.store[claims.userId.value] == claims.tv
    ensures AcceptsLater(ttl, s, states, Resurrection(stale, t, claims), 4, t, claims)
  {
    var run := Resurrection(stale, t, claims);
    ClearedByStale(ttl, s, stale, t, claims);
    var s1 := Next(ttl, s, run[0]);
    var s2 := Next(ttl, s1, run[1]);
    JudgedByStore(ttl, s2, t, claims);
    var s3 := Next(ttl, s2, run[2]);
    var s4 := Next(ttl, s3, run[3]);
    states := [s, s1, s2, s3, s4, Next(ttl, s4, run[4])];
    assert Run(ttl, states, run);
  }

  lemma {:induction false} FreshTask(tasks: set<Task>) returns (t: Task)
    ensures t !in tasks
    ensures forall x :: x in tasks ==> x < t
  {
    if tasks == {} {
      t := 0;
    } else {
      var x :| x in tasks;
      var u := FreshTask(tasks - {x});
      t := Max(u, x + 1);
      assert forall y :: y in tasks ==> y == x || y in tasks - {x};
    }
  }

  /** A revocation followed by its invalidation refuses every request with the token that begins
      later, in every continuation, iff there is no TTL or no request was between its store read and
      its record with the outdated answer at that moment. The token is otherwise good: its user is
      known, at the token's version, and not cached. */
  lemma InvalidationRefusesIff(ttl: nat, s: Sys, claims: Claims)
    requires Consistent(s) && RevokedAndDropped(s, claims.jti) && !claims.apiKey
    requires claims.userId.Some? && claims.userId.value !in s.users.cache
    requires claims.userId.value in s.users.store && s.users.store[claims.userId.value] == claims.tv
    ensures RefusedFromNowOn(ttl, s, claims) <==> ttl == 0 || NoStaleFlight(s.jtis, claims.jti, v => v)
  {
    if ttl == 0 {
      forall states, run, n: nat, t ensures !AcceptsLater(ttl, s, states, run, n, t, claims) {
        NoneClearedWithoutTtl(s, states, run, n, t, claims);
      }
    } else if NoStaleFlight(s.jtis, claims.jti, v => v) {
      RevokedStaysRefused(ttl, s, claims);
    } else {
      var stale :| stale in s.jtis.flights && s.jtis.flights[stale].Read? && s.jtis.flights[stale].key == claims.jti
        && !Settled(s.jtis.flights[stale].found, v => v);
      var t := FreshTask(s.requests.Keys);
      var states := StaleFlightAccepts(ttl, s, stale, t, claims);
    }
  }

  /** Whatever the user and the rest of the token: with no such request, a revoked and invalidated
      token is never accepted again for a request that begins later. */
  lemma RevokedStaysRefused(ttl: nat, s: Sys, claims: Claims)
    requires Consistent(s) && RevokedAndDropped(s, claims.jti) && NoStaleFlight(s.jtis, claims.jti, v => v)
    ensures RefusedFromNowOn(ttl, s, claims)
  {
    forall states, run, n: nat, t ensures !AcceptsLater(ttl, s, states, run, n, t, claims) {
      NoneClearedAfter(ttl, s, states, run, n, t, claims);
    }
  }

  // A reader waiting to record the token's version as its user's.
  predicate CarriesVersion(s: Sys, stale: Task, user: UserId, tv: int) {
    stale in s.users.flights && s.users.flights[stale].Read? && s.users.flights[stale].key == user &&
    s.users.flights[stale].found == Some(tv)
  }

  // Such a reader that matters: its record is cached, or its own request has the claims.
  ghost predicate Endangered(ttl: nat, s: Sys, user: UserId, tv: int, claims: Claims) {
    exists stale :: CarriesVersion(s, stale, user, tv) &&
      (ttl > 0 || (stale in s.requests && s.requests[stale] == CheckingVersion(claims)))
  }

  // A continuation of `s` in which the version stays retired accepts a request with the claims, be
  // it under way already or begun later.
  ghost predicate AcceptsRetired(ttl: nat, s: Sys, states: seq<Sys>, run: seq<Event>, n: nat, t: Task, claims: Claims)
    requires claims.userId.Some?
  {
    Run(ttl, states, run) && states[0] == s && n < |run| && Retired(states, run, 0, claims.userId.value, claims.tv) &&
    Accepts(states[n], states[n + 1], t, claims)
  }

  ghost predicate RetiredForGood(ttl: nat, s: Sys, claims: Claims)
    requires claims.userId.Some?
  {
    forall states, run, n: nat, t :: !AcceptsRetired(ttl, s, states, run, n, t, claims)
  }

  // The store, the cache and every reader that matters hold another version than the claims.
  ghost predicate Safe(ttl: nat, s: Sys, user: UserId, claims: Claims) {
    && user in s.users.store && s.users.store[user] != claims.tv
    && (ttl > 0 && user in s.users.cache ==> s.users.cache[user].value != claims.tv)
    && !Endangered(ttl, s, user, claims.tv, claims)
  }

  lemma SafeStep(ttl: nat, s: Sys, e: Event, user: UserId, claims: Claims)
    requires Consistent(s) && Safe(ttl, s, user, claims)
    requires e.SetVersion? && e.user == user ==> e.version != claims.tv
    ensures Safe(ttl, Next(ttl, s, e), user, claims)
  {
    var s' := Next(ttl, s, e);
    forall stale | CarriesVersion(s', stale, user, claims.tv)
      ensures ttl == 0 && !(stale in s'.requests && s'.requests[stale] == CheckingVersion(claims))
    {
      assert PhaseFits(s, stale);
      assert CarriesVersion(s, stale, user, claims.tv);
    }
  }

  lemma {:induction false} SafeAlways(ttl: nat, states: seq<Sys>, run: seq<Event>, n: nat, user: UserId, claims: Claims)
    requires Run(ttl, states, run) && Consistent(states[0]) && n <= |run| && Safe(ttl, states[0], user, claims)
    requires Retired(states, run, 0, user, claims.tv)
    ensures Safe(ttl, states[n], user, claims)
  {
    if n > 0 {
      SafeAlways(ttl, states, run, n - 1, user, claims);
      ConsistentAlways(ttl, states, run, n - 1);
      assert Follows(ttl, states[n - 1], run[n - 1], states[n]);
      SafeStep(ttl, states[n - 1], run[n - 1], user, claims);
    }
  }

  /** Whatever the rest of the token: once its version is retired for good and the cached entry has
      been invalidated while no such reader was under way, no request with the token is accepted
      again, not even one already under way. */
  lemma RetiredStaysRefused(ttl: nat, s: Sys, claims: Claims)
    requires Consistent(s) && claims.userId.Some? && claims.userId.value !in s.users.cache
    requires !Endangered(ttl, s, claims.userId.value, claims.tv, claims)
    ensures RetiredForGood(ttl, s, claims)
  {
    forall states: seq<Sys>, run: seq<Event>, n: nat, t ensures !AcceptsRetired(ttl, s, states, run, n, t, claims) {
      if AcceptsRetired(ttl, s, states, run, n, t, claims) {
        SafeAlways(ttl, states, run, n, claims.userId.value, claims);
        ConsistentAlways(ttl, states, run, n);
        assert Follows(ttl, states[n], run[n], states[n + 1]);
        AcceptanceIsReply(ttl, states[n], run[n], t, claims);
        assert run[n].RecordVersion? ==> CarriesVersion(states[n], run[n].task, claims.userId.value, claims.tv);
      }
    }
  }

  // A request with the claims is judged by an outdated version that a reader has just recorded.
  function VersionResurrection(stale: Task, t: Task, claims: Claims): seq<Event> {
    [RecordVersion(stale), Begin(t, claims), ReadJti(t), RecordJti(t), AskVersion(t)]
  }

  // The token's own jti is in order and not cached.
  predicate JtiInOrder(s: Sys, claims: Claims) {
    && !claims.apiKey && claims.jti !in s.jtis.cache
    && (claims.jti in s.jtis.store ==> !s.jtis.store[claims.jti])
  }

  // Such a token is cleared on the jti axis by the store.
  lemma ClearedByStore(ttl: nat, s: Sys, t: Task, claims: Claims) returns (states: seq<Sys>)
    requires Consistent(s) && t !in s.requests && JtiInOrder(s, claims) && claims.userId.Some?
    ensures Run(ttl, states, [Begin(t, claims), ReadJti(t), RecordJti(t)]) && states[0] == s
    ensures states[3].users == s.users && states[3].requests == s.requests[t := Cleared(claims)]
  {
    assert PhaseFits(s, t);
    var s1 := Next(ttl, s, Begin(t, claims));
    assert s1.requests[t] == CheckingJti(claims) && s1.jtis.flights[t] == Reading(claims.jti);
    var s2 := Next(ttl, s1, ReadJti(t));
    assert s2.jtis.flights[t] == Read(claims.jti, Some(false), s1.jtis.now);
    states := [s, s1, s2, Next(ttl, s2, RecordJti(t))];
  }

  // The outdated version is recorded while the token's own jti stays in order.
  lemma StaleVersionRecorded(ttl: nat, s: Sys, stale: Task, t: Task, claims: Claims)
    requires Consistent(s) && t !in s.requests && JtiInOrder(s, claims) && claims.userId.Some?
    requires CarriesVersion(s, stale, claims.userId.value, claims.tv)
    ensures var s' := Next(ttl, s, RecordVersion(stale));
      && Consistent(s') && t !in s'.requests && t !in s'.users.flights && JtiInOrder(s', claims)
      && claims.userId.value in s'.users.cache && s'.users.cache[claims.userId.value] == Entry(claims.tv, s'.users.now)
  {
    assert PhaseFits(s, stale) && PhaseFits(s, t);
    ConsistentStep(ttl, s, RecordVersion(stale));
  }

  lemma StaleVersionAccepts(ttl: nat, s: Sys, stale: Task, t: Task, claims: Claims) returns (states: seq<Sys>)
    requires Consistent(s) && ttl > 0 && t !in s.requests && JtiInOrder(s, claims) && claims.userId.Some?
    requires CarriesVersion(s, stale, claims.userId.value, claims.tv)
    requires claims.userId.value in s.users.store && s.users.store[claims.userId.value] != claims.tv
    ensures AcceptsRetired(ttl, s, states, VersionResurrection(stale, t, claims), 4, t, claims)
  {
    StaleVersionRecorded(ttl, s, stale, t, claims);
    var s1 := Next(ttl, s, RecordVersion(stale));
    var mid := ClearedByStore(ttl, s1, t, claims);
    var end := Next(ttl, mid[3], AskVersion(t));
    assert Run(ttl, [s, s1], [RecordVersion(stale)]) && Run(ttl, [mid[3], end], [AskVersion(t)]);
    RunConcat(ttl, mid, [Begin(t, claims), ReadJti(t), RecordJti(t)], [mid[3], end], [AskVersion(t)]);
    RunConcat(ttl, [s, s1], [RecordVersion(stale)], mid + [end],
      [Begin(t, claims), ReadJti(t), RecordJti(t)] + [AskVersion(t)]);
    states := [s, s1] + (mid + [end])[1..];
    assert [mid[3], end][1..] == [end];
    assert states[4] == mid[3] && states[5] == end;
    assert [RecordVersion(stale)] + ([Begin(t, claims), ReadJti(t), RecordJti(t)] + [AskVersion(t)]) ==
      VersionResurrection(stale, t, claims);
  }

  /** Conversely, if the token is otherwise good, that is exactly the condition: the invalidation
      refuses a retired version for good iff no reader was between its store read and its record
      with that version and either there is a TTL or the reader's own request has the claims. */
  lemma RetirementRefusesIff(ttl: nat, s: Sys, claims: Claims)
    requires Consistent(s) && JtiInOrder(s, claims) && claims.userId.Some? && claims.userId.value !in s.users.cache
    requires claims.userId.value in s.users.store && s.users.store[claims.userId.value] != claims.tv
    ensures RetiredForGood(ttl, s, claims) <==> !Endangered(ttl, s, claims.userId.value, claims.tv, claims)
  {
    var user := claims.userId.value;
    if !Endangered(ttl, s, user, claims.tv, claims) {
      RetiredStaysRefused(ttl, s, claims);
    } else {
      var stale :| CarriesVersion(s, stale, user, claims.tv) &&
        (ttl > 0 || (stale in s.requests && s.requests[stale] == CheckingVersion(claims)));
      if ttl > 0 {
        var t := FreshTask(s.requests.Keys);
        var states := StaleVersionAccepts(ttl, s, stale, t, claims);
      } else {
        var states, run := [s, Next(ttl, s, RecordVersion(stale))], [RecordVersion(stale)];
        assert Run(ttl, states, run);
        assert AcceptsRetired(ttl, s, states, run, 0, stale, claims);
      }
    }
  }
}
