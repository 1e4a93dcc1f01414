/** The cache in front of the JWT revocation store and the check every JWT request goes through
    (crates/ox-api/src/jwt_revocation_cache.rs, crates/ox-api/src/middleware.rs). */
module RevocationCache {
  import opened Prelude

  type Jti = nat
  type UserId = nat

  datatype Entry<V> = Entry(value: V, insertedAt: Time)

  predicate Fresh<V>(ttl: nat, e: Entry<V>, now: Time) { Elapsed(now, e.insertedAt) < ttl }

  // `None` sends the caller to the store.
  function Lookup<K, V>(ttl: nat, cache: map<K, Entry<V>>, k: K, now: Time): Option<V> {
    if k in cache && Fresh(ttl, cache[k], now) then Some(cache[k].value) else None
  }

  // ------------------------------------------------------------------
  // One request, alone
  // ------------------------------------------------------------------

  datatype Claims = Claims(apiKey: bool, jti: Jti, userId: Option<UserId>, tv: int)

  datatype Verdict = Accepted | Unauthorized | Unavailable

  // The clock at the two lookups and the two records, and what the store answers if asked.
  datatype World = World(lookup1: Time, record1: Time, lookup2: Time, record2: Time,
                         find: Result<bool, ()>, version: Result<Option<int>, ()>)

  // What an axis answers: the cache if it may, else the store.
  function Consult<V>(cached: Option<V>, store: Result<Option<V>, ()>): Result<Option<V>, ()> {
    if cached.Some? then Ok(cached) else store
  }

  function Found(w: World): Result<Option<bool>, ()> {
    match w.find case Ok(b) => Ok(Some(b)) case Err(e) => Err(e)
  }

  datatype Checked = Checked(verdict: Verdict, revoked: map<Jti, Entry<bool>>, tokenVersions: map<UserId, Entry<int>>)

  // What one request with nobody in between gets, and leaves in the two caches.
  function Judge(ttl: nat, revoked: map<Jti, Entry<bool>>, tokenVersions: map<UserId, Entry<int>>, claims: Claims,
                 w: World): Checked
  {
    if claims.apiKey then Checked(Accepted, revoked, tokenVersions)
    else
      var known := Lookup(ttl, revoked, claims.jti, w.lookup1);
      var first := Consult(known, Found(w));
      var revoked' := if known.None? && w.find.Ok? then revoked[claims.jti := Entry(w.find.value, w.record1)]
        else revoked;
      if first.Err? then Checked(Unavailable, revoked', tokenVersions)
      else if first != Ok(Some(false)) || claims.userId.None? then Checked(Unauthorized, revoked', tokenVersions)
      else JudgeVersion(ttl, revoked', tokenVersions, claims, w)
  }

  function JudgeVersion(ttl: nat, revoked: map<Jti, Entry<bool>>, tokenVersions: map<UserId, Entry<int>>,
                        claims: Claims, w: World): Checked
    requires claims.userId.Some?
  {
    var user := claims.userId.value;
    var known := Lookup(ttl, tokenVersions, user, w.lookup2);
    var second := Consult(known, w.version);
    var tokenVersions' := if known.None? && w.version.Ok? && w.version.value.Some?
      then tokenVersions[user := Entry(w.version.value.value, w.record2)] else tokenVersions;
    Checked(if second.Err? then Unavailable else if second == Ok(Some(claims.tv)) then Accepted else Unauthorized,
      revoked, tokenVersions')
  }

  class JwtRevocationCache {
    const ttl: nat
    var revoked: map<Jti, Entry<bool>>
    var tokenVersions: map<UserId, Entry<int>>

    constructor (ttl: nat)
      ensures this.ttl == ttl && revoked == map[] && tokenVersions == map[]
    {
      this.ttl := ttl;
      revoked := map[];
      tokenVersions := map[];
    }

    method RecordRevocation(jti: Jti, isRevoked: bool, now: Time)
      modifies this`revoked
      ensures revoked == old(revoked)[jti := Entry(isRevoked, now)]
    {
      revoked := revoked[jti := Entry(isRevoked, now)];
    }

    method RecordTokenVersion(user: UserId, version: int, now: Time)
      modifies this`tokenVersions
      ensures tokenVersions == old(tokenVersions)[user := Entry(version, now)]
    {
      tokenVersions := tokenVersions[user := Entry(version, now)];
    }

    method InvalidateJti(jti: Jti)
      modifies this`revoked
      ensures revoked == old(revoked) - {jti}
    {
      revoked := revoked - {jti};
    }

    method InvalidateUser(user: UserId)
      modifies this`tokenVersions
      ensures tokenVersions == old(tokenVersions) - {user}
    {
      tokenVersions := tokenVersions - {user};
    }

    /** Accepted exactly when both axes clear the token; an unreachable store refuses as
        unavailable only where it was needed; and each miss the store answers is recorded, an
        absent user excepted. */
    method CheckJwtRevocation(claims: Claims, w: World) returns (verdict: Verdict)
      modifies this
      ensures Checked(verdict, revoked, tokenVersions) == Judge(ttl, old(revoked), old(tokenVersions), claims, w)
      ensures var known := Lookup(ttl, old(revoked), claims.jti, w.lookup1);
        && (!claims.apiKey && (known == Some(true) || (known.None? && w.find == Ok(true))) ==> verdict == Unauthorized)
        && (!claims.apiKey && known.None? && w.find.Err? ==> verdict == Unavailable)
        && (verdict == Accepted && !claims.apiKey ==> known == Some(false) || (known.None? && w.find == Ok(false)))
      ensures verdict == Accepted && !claims.apiKey ==> claims.userId.Some?
      ensures verdict == Accepted && !claims.apiKey ==>
        var known := Lookup(ttl, old(tokenVersions), claims.userId.value, w.lookup2);
        known == Some(claims.tv) || (known.None? && w.version == Ok(Some(claims.tv)))
    {
      if claims.apiKey {
        return Accepted;
      }
      var isRevoked: bool;
      match Lookup(ttl, revoked, claims.jti, w.lookup1) {
        case Some(answer) => isRevoked := answer;
        case None =>
          match w.find {
            case Ok(answer) =>
              RecordRevocation(claims.jti, answer, w.record1);
              isRevoked := answer;
            case Err(_) => return Unavailable;
          }
      }
      if isRevoked {
        return Unauthorized;
      }
      if claims.userId.None? {
        return Unauthorized;
      }
      var user := claims.userId.value;
      var current: int;
      match Lookup(ttl, tokenVersions, user, w.lookup2) {
        case Some(v) => current := v;
        case None =>
          match w.version {
            case Ok(Some(v)) =>
              RecordTokenVersion(user, v, w.record2);
              current := v;
            case Ok(None) => return Unauthorized;
            case Err(_) => return Unavailable;
          }
      }
      return if claims.tv != current then Unauthorized else Accepted;
    }
  }

  // ------------------------------------------------------------------
  // One axis under interleaved requests: lookup, store read and record are separate steps
  // ------------------------------------------------------------------

  type Task = nat

  datatype Flight<K, V> = Reading(key: K) | Read(key: K, found: Option<V>, readAt: Time)

  datatype Axis<K, V> = Axis(now: Time, store: map<K, V>, cache: map<K, Entry<V>>, flights: map<Task, Flight<K, V>>)

  datatype Step<K, V> =
    | Tick(delta: nat)
    | Write(key: K, value: V)
    | Invalidate(key: K)
    | Ask(task: Task, key: K)
    | ReadStore(task: Task)
    | Record(task: Task)
    | Fail(task: Task)

  // `absent` is what the store reports for a key it does not hold: "not revoked" on the jti axis,
  // no user on the version axis.
  datatype Config<V> = Config(ttl: nat, absent: Option<V>)

  function StoreAnswer<K, V>(cfg: Config<V>, store: map<K, V>, k: K): Option<V> {
    if k in store then Some(store[k]) else cfg.absent
  }

  // Steps that are not enabled do nothing.
  function Apply<K, V>(cfg: Config<V>, s: Axis<K, V>, step: Step<K, V>): Axis<K, V> {
    match step
    case Tick(delta) => s.(now := s.now + delta)
    case Write(k, v) => s.(store := s.store[k := v])
    case Invalidate(k) => s.(cache := s.cache - {k})
    case Ask(t, k) =>
      if t !in s.flights && Lookup(cfg.ttl, s.cache, k, s.now).None?
      then s.(flights := s.flights[t := Reading(k)]) else s
    case ReadStore(t) =>
      if t in s.flights && s.flights[t].Reading?
      then s.(flights := s.flights[t := Read(s.flights[t].key, StoreAnswer(cfg, s.store, s.flights[t].key), s.now)])
        else s
    case Record(t) =>
      if t in s.flights && s.flights[t].Read? then
        var f := s.flights[t];
        s.(flights := s.flights - {t}, cache := if f.found.Some? then s.cache[f.key := Entry(f.found.value, s.now)]
          else s.cache)
      else s
    case Fail(t) =>
      if t in s.flights && s.flights[t].Reading? then s.(flights := s.flights - {t}) else s
  }

  // The answer a step gives its request: on a hit at the lookup, on a miss when recording.
  function Reply<K, V>(cfg: Config<V>, s: Axis<K, V>, step: Step<K, V>): Option<(K, Option<V>)> {
    match step
    case Ask(t, k) =>
      var hit := Lookup(cfg.ttl, s.cache, k, s.now);
      if t !in s.flights && hit.Some? then Some((k, hit)) else None
    case Record(t) =>
      if t in s.flights && s.flights[t].Read? then Some((s.flights[t].key, s.flights[t].found)) else None
    case _ => None
  }

  /** A request nobody interferes with does to the axis what CheckJwtRevocation does: it is answered
      from the cache if fresh and else from the store, and the store's answer is recorded. */
  lemma UndisturbedRequest<K, V>(cfg: Config<V>, s: Axis<K, V>, t: Task, k: K)
    requires t !in s.flights
    ensures var cached, stored := Lookup(cfg.ttl, s.cache, k, s.now), StoreAnswer(cfg, s.store, k);
      var asked := Apply(cfg, s, Ask(t, k));
      if cached.Some? then asked == s && Reply(cfg, s, Ask(t, k)) == Some((k, cached))
      else
        var read := Apply(cfg, asked, ReadStore(t));
        Reply(cfg, s, Ask(t, k)).None? && Reply(cfg, read, Record(t)) == Some((k, stored)) &&
        Apply(cfg, read, Record(t)) ==
          s.(cache := if stored.Some? then s.cache[k := Entry(stored.value, s.now)] else s.cache)
  {
    if Lookup(cfg.ttl, s.cache, k, s.now).None? {
      var read := Apply(cfg, Apply(cfg, s, Ask(t, k)), ReadStore(t));
      assert read.flights - {t} == s.flights;
    }
  }

  // The state after the first n steps of a run.
  function After<K, V>(cfg: Config<V>, s: Axis<K, V>, run: seq<Step<K, V>>, n: nat): Axis<K, V>
    requires n <= |run|
  {
    if n == 0 then s else Apply(cfg, After(cfg, s, run, n - 1), run[n - 1])
  }

  predicate Starts<K, V>(s: Axis<K, V>) { s.cache == map[] && s.flights == map[] }

  lemma {:induction false} TimeAdvances<K, V>(cfg: Config<V>, s: Axis<K, V>, run: seq<Step<K, V>>, m: nat, n: nat)
    requires m <= n <= |run|
    ensures After(cfg, s, run, m).now <= After(cfg, s, run, n).now
  {
    if m < n {
      TimeAdvances(cfg, s, run, m, n - 1);
    }
  }

  // Step i of the run is where a task read `found` for `key` from the store at time `at`.
  ghost predicate ReadAtStep<K, V>(cfg: Config<V>, s: Axis<K, V>, run: seq<Step<K, V>>, i: nat, key: K,
                                   found: Option<V>)
    requires i < |run|
  {
    var here := After(cfg, s, run, i);
    run[i].ReadStore? && run[i].task in here.flights && here.flights[run[i].task] == Reading(key) &&
    StoreAnswer(cfg, here.store, key) == found
  }

  // The answer read at step i is what step j records: the task carries it from the one to the other.
  ghost predicate RecordsRead<K, V>(cfg: Config<V>, s: Axis<K, V>, run: seq<Step<K, V>>, i: nat, j: nat, key: K,
                                    found: Option<V>)
    requires i < |run| && j < |run|
  {
    && i < j && ReadAtStep(cfg, s, run, i, key, found) && run[j] == Record(run[i].task)
    && Carries(cfg, s, run, i, j, key, found)
  }

  // From step i's read up to step j its task holds the answer.
  ghost predicate Carries<K, V>(cfg: Config<V>, s: Axis<K, V>, run: seq<Step<K, V>>, i: nat, j: nat, key: K,
                                found: Option<V>)
    requires i < |run| && j <= |run| && run[i].ReadStore?
  {
    forall m :: i < m <= j ==> var flights := After(cfg, s, run, m).flights;
      run[i].task in flights && flights[run[i].task] == Read(key, found, After(cfg, s, run, i).now)
  }

  lemma {:induction false} FlightOrigin<K, V>(cfg: Config<V>, s: Axis<K, V>, run: seq<Step<K, V>>, n: nat, t: Task)
    returns (i: nat)
    requires t !in s.flights && n <= |run|
    requires t in After(cfg, s, run, n).flights && After(cfg, s, run, n).flights[t].Read?
    ensures i < n && var f := After(cfg, s, run, n).flights[t];
      ReadAtStep(cfg, s, run, i, f.key, f.found) && run[i].task == t && Carries(cfg, s, run, i, n, f.key, f.found)
  {
    var before := After(cfg, s, run, n - 1);
    if t in before.flights && before.flights[t].Read? {
      i := FlightOrigin(cfg, s, run, n - 1, t);
    } else {
      i := n - 1;
    }
  }

  // What step j recorded is what the cache holds from then on up to step n.
  ghost predicate CachedSince<K, V>(cfg: Config<V>, s: Axis<K, V>, run: seq<Step<K, V>>, n: nat, j: nat, key: K,
                                 found: Option<V>)
    requires j <= n <= |run|
  {
    forall m :: j < m <= n ==> var cache := After(cfg, s, run, m).cache;
      key in cache && found == Some(cache[key].value) && cache[key].insertedAt == After(cfg, s, run, j).now
  }

  lemma {:induction false} EntryOrigin<K, V>(cfg: Config<V>, s: Axis<K, V>, run: seq<Step<K, V>>, n: nat, k: K)
    returns (i: nat, j: nat)
    requires Starts(s) && n <= |run| && k in After(cfg, s, run, n).cache
    ensures i < j < n && var e := After(cfg, s, run, n).cache[k];
      RecordsRead(cfg, s, run, i, j, k, Some(e.value)) && CachedSince(cfg, s, run, n, j, k, Some(e.value))
  {
    var before, step := After(cfg, s, run, n - 1), run[n - 1];
    if step.Record? && step.task in before.flights && before.flights[step.task].Read? &&
      before.flights[step.task].key == k && before.flights[step.task].found.Some? {
      j := n - 1;
      i := FlightOrigin(cfg, s, run, n - 1, step.task);
    } else {
      i, j := EntryOrigin(cfg, s, run, n - 1, k);
    }
  }

  // The answer at step n was read at step i and recorded at step j: by its own request, or by the one
  // whose entry it found fresh.
  ghost predicate AnsweredBy<K, V>(cfg: Config<V>, s: Axis<K, V>, run: seq<Step<K, V>>, i: nat, j: nat, n: nat,
                                   key: K, found: Option<V>)
    requires j <= n < |run|
  {
    && i < j && RecordsRead(cfg, s, run, i, j, key, found)
    && (j == n ||
        (run[n].Ask? && CachedSince(cfg, s, run, n, j, key, found) &&
         After(cfg, s, run, n).now - After(cfg, s, run, j).now < cfg.ttl))
  }

  /** Every answer has such an origin. */
  lemma AnswerOrigin<K, V>(cfg: Config<V>, s: Axis<K, V>, run: seq<Step<K, V>>, n: nat) returns (i: nat, j: nat)
    requires Starts(s) && n < |run| && Reply(cfg, After(cfg, s, run, n), run[n]).Some?
    ensures i < j <= n && var reply := Reply(cfg, After(cfg, s, run, n), run[n]).value;
      AnsweredBy(cfg, s, run, i, j, n, reply.0, reply.1)
  {
    if run[n].Record? {
      j := n;
      i := FlightOrigin(cfg, s, run, n, run[n].task);
    } else {
      i, j := EntryOrigin(cfg, s, run, n, run[n].key);
    }
  }

  /** Bounded staleness. If the store has held something else for the key ever since step r, then
      an answer given at step n was read before r, and outlives the change by no more than the
      answering entry's delay from read to record, plus, on a hit, less than one TTL. */
  lemma BoundedStaleness<K, V>(cfg: Config<V>, s: Axis<K, V>, run: seq<Step<K, V>>, r: nat, n: nat)
    returns (i: nat, j: nat)
    requires Starts(s) && r <= n < |run| && Reply(cfg, After(cfg, s, run, n), run[n]).Some?
    requires var reply := Reply(cfg, After(cfg, s, run, n), run[n]).value;
      forall m :: r <= m <= n ==> StoreAnswer(cfg, After(cfg, s, run, m).store, reply.0) != reply.1
    ensures i < r && i < j <= n && var reply := Reply(cfg, After(cfg, s, run, n), run[n]).value;
      var lag := After(cfg, s, run, j).now - After(cfg, s, run, i).now;
      var stale := After(cfg, s, run, n).now - After(cfg, s, run, r).now;
      AnsweredBy(cfg, s, run, i, j, n, reply.0, reply.1) && lag >= 0 &&
        (if j == n then stale <= lag else stale < cfg.ttl + lag)
  {
    i, j := AnswerOrigin(cfg, s, run, n);
    assert i < r;
    TimeAdvances(cfg, s, run, i, r);
    TimeAdvances(cfg, s, run, i, j);
  }

  // ------------------------------------------------------------------
  // The two axes
  // ------------------------------------------------------------------

  // On the jti axis the store holds `true` for a revoked token and nothing for any other.
  function JtiAxis(ttl: nat): Config<bool> { Config(ttl, Some(false)) }

  // No step of the run writes anything else for the key.
  predicate OnlyWrites<K(==), V>(run: seq<Step<K, V>>, from: nat, k: K, ok: V -> bool) {
    forall m :: from <= m < |run| ==> run[m].Write? && run[m].key == k ==> ok(run[m].value)
  }

  lemma {:induction false} StoreStays<K, V>(cfg: Config<V>, s: Axis<K, V>, run: seq<Step<K, V>>, r: nat, n: nat, k: K,
                                            ok: V -> bool)
    requires r <= n <= |run| && OnlyWrites(run, r, k, ok)
    requires k in After(cfg, s, run, r).store && ok(After(cfg, s, run, r).store[k])
    ensures k in After(cfg, s, run, n).store && ok(After(cfg, s, run, n).store[k])
  {
    if r < n {
      StoreStays(cfg, s, run, r, n - 1, k, ok);
    }
  }

  /** A token revoked at step r and cleared at step n: the answer predates the revocation, and its
      age since the revocation is below TTL plus the entry's read-to-record delay. */
  lemma RevokedTokenClears(ttl: nat, s: Axis<Jti, bool>, run: seq<Step<Jti, bool>>, jti: Jti, r: nat, n: nat)
    returns (i: nat, j: nat)
    requires Starts(s) && r <= n < |run| && OnlyWrites(run, r, jti, v => v)
    requires jti in After(JtiAxis(ttl), s, run, r).store && After(JtiAxis(ttl), s, run, r).store[jti]
    requires Reply(JtiAxis(ttl), After(JtiAxis(ttl), s, run, n), run[n]) == Some((jti, Some(false)))
    ensures i < r && i < j <= n && AnsweredBy(JtiAxis(ttl), s, run, i, j, n, jti, Some(false))
    ensures var lag := After(JtiAxis(ttl), s, run, j).now - After(JtiAxis(ttl), s, run, i).now;
      After(JtiAxis(ttl), s, run, n).now - After(JtiAxis(ttl), s, run, r).now < (if j == n then 1 else ttl) + lag
  {
    var cfg := JtiAxis(ttl);
    forall m | r <= m <= n ensures StoreAnswer(cfg, After(cfg, s, run, m).store, jti) != Some(false) {
      StoreStays(cfg, s, run, r, m, jti, v => v);
    }
    i, j := BoundedStaleness(cfg, s, run, r, n);
  }

  // On the version axis a user the store does not hold has no version.
  function VersionAxis(ttl: nat): Config<int> { Config(ttl, None) }

  /** The same for a token version that is no longer, and never again, the user's. */
  lemma RetiredVersionMatches(ttl: nat, s: Axis<UserId, int>, run: seq<Step<UserId, int>>, user: UserId, tv: int,
                              r: nat, n: nat) returns (i: nat, j: nat)
    requires Starts(s) && r <= n < |run| && OnlyWrites(run, r, user, v => v != tv)
    requires user in After(VersionAxis(ttl), s, run, r).store && After(VersionAxis(ttl), s, run, r).store[user] != tv
    requires Reply(VersionAxis(ttl), After(VersionAxis(ttl), s, run, n), run[n]) == Some((user, Some(tv)))
    ensures i < r && i < j <= n && AnsweredBy(VersionAxis(ttl), s, run, i, j, n, user, Some(tv))
    ensures var lag := After(VersionAxis(ttl), s, run, j).now - After(VersionAxis(ttl), s, run, i).now;
      After(VersionAxis(ttl), s, run, n).now - After(VersionAxis(ttl), s, run, r).now < (if j == n then 1 else ttl) +
        lag
  {
    var cfg := VersionAxis(ttl);
    forall m | r <= m <= n ensures StoreAnswer(cfg, After(cfg, s, run, m).store, user) != Some(tv) {
      StoreStays(cfg, s, run, r, m, user, v => v != tv);
    }
    i, j := BoundedStaleness(cfg, s, run, r, n);
  }

  // A reader that is slow by `lag` between store and cache, a change right after its read, and
  // another request at the last moment the entry is fresh.
  function SlowReader<K, V>(ttl: nat, lag: nat, k: K, next: V): seq<Step<K, V>>
    requires ttl >= 1
  {
    [Ask(0, k), ReadStore(0), Write(k, next), Tick(lag), Record(0), Tick(ttl - 1), Ask(1, k)]
  }

  /** The bound is attained on either axis, for every delay and every change, so the TTL alone does
      not bound the window: what the store stopped holding at step 2 is answered ttl + lag - 1 later. */
  lemma StalenessAttained<K, V>(cfg: Config<V>, s: Axis<K, V>, lag: nat, k: K, next: V)
    requires cfg.ttl >= 1 && Starts(s) && StoreAnswer(cfg, s.store, k).Some?
    ensures var run := SlowReader(cfg.ttl, lag, k, next);
      After(cfg, s, run, 3).store == s.store[k := next] &&
        Reply(cfg, After(cfg, s, run, 6), run[6]) == Some((k, StoreAnswer(cfg, s.store, k))) &&
        After(cfg, s, run, 6).now - After(cfg, s, run, 3).now == cfg.ttl + lag - 1
  {
    var run, found := SlowReader(cfg.ttl, lag, k, next), StoreAnswer(cfg, s.store, k);
    var reading := s.(flights := map[0 := Reading(k)]);
    var read := s.(flights := map[0 := Read(k, found, s.now)]);
    var changed := read.(store := s.store[k := next]);
    var late := changed.(now := s.now + lag);
    var cached := Axis(s.now + lag, late.store, map[k := Entry(found.value, s.now + lag)], map[]);
    assert After(cfg, s, run, 0) == s;
    assert After(cfg, s, run, 1) == Apply(cfg, s, run[0]) == reading;
    assert After(cfg, s, run, 2) == Apply(cfg, reading, run[1]) == read;
    assert After(cfg, s, run, 3) == Apply(cfg, read, run[2]) == changed;
    assert After(cfg, s, run, 4) == Apply(cfg, changed, run[3]) == late;
    assert late.flights - {0} == map[];
    assert After(cfg, s, run, 5) == Apply(cfg, late, run[4]) == cached;
    assert After(cfg, s, run, 6) == Apply(cfg, cached, run[5]);
  }

  // ------------------------------------------------------------------
  // Invalidation
  // ------------------------------------------------------------------

  predicate Settled<V>(found: Option<V>, ok: V -> bool) { found.Some? ==> ok(found.value) }

  // No request on the key still carries a store answer from before the change.
  ghost predicate NoStaleFlight<K, V>(s: Axis<K, V>, k: K, ok: V -> bool) {
    forall t :: t in s.flights && s.flights[t].Read? && s.flights[t].key == k ==> Settled(s.flights[t].found, ok)
  }

  // Every later answer on the key is acceptable, in every continuation whose writes are.
  ghost predicate CleanForever<K(!new), V(!new)>(cfg: Config<V>, s: Axis<K, V>, k: K, ok: V -> bool) {
    forall run: seq<Step<K, V>>, n: nat :: n < |run| && OnlyWrites(run, 0, k, ok) ==>
      AcceptableReply(cfg, s, run, n, k, ok)
  }

  ghost predicate AcceptableReply<K, V>(cfg: Config<V>, s: Axis<K, V>, run: seq<Step<K, V>>, n: nat, k: K,
                                        ok: V -> bool)
    requires n < |run|
  {
    var reply := Reply(cfg, After(cfg, s, run, n), run[n]);
    reply.Some? && reply.value.0 == k ==> Settled(reply.value.1, ok)
  }

  ghost predicate Clean<K, V>(s: Axis<K, V>, k: K, ok: V -> bool) {
    && k in s.store && ok(s.store[k])
    && (k in s.cache ==> ok(s.cache[k].value))
    && NoStaleFlight(s, k, ok)
  }

  lemma {:induction false} StaysClean<K, V>(cfg: Config<V>, s: Axis<K, V>, run: seq<Step<K, V>>, n: nat, k: K,
                                            ok: V -> bool)
    requires Clean(s, k, ok) && n <= |run| && OnlyWrites(run, 0, k, ok)
    ensures Clean(After(cfg, s, run, n), k, ok)
  {
    if n > 0 {
      StaysClean(cfg, s, run, n - 1, k, ok);
    }
  }

  /** Once the store has changed and the entry has been invalidated, no outdated answer is ever
      given again, in any continuation, iff no request was between its store read and its record
      with an outdated answer at the moment of the invalidation. */
  lemma InvalidationExact<K(!new), V(!new)>(cfg: Config<V>, s: Axis<K, V>, k: K, ok: V -> bool)
    requires k in s.store && ok(s.store[k]) && k !in s.cache
    ensures CleanForever(cfg, s, k, ok) <==> NoStaleFlight(s, k, ok)
  {
    if NoStaleFlight(s, k, ok) {
      forall run: seq<Step<K, V>>, n: nat | n < |run| && OnlyWrites(run, 0, k, ok)
        ensures AcceptableReply(cfg, s, run, n, k, ok)
      {
        StaysClean(cfg, s, run, n, k, ok);
      }
    } else {
      var t :| t in s.flights && s.flights[t].Read? && s.flights[t].key == k && !Settled(s.flights[t].found, ok);
      var run: seq<Step<K, V>> := [Record(t)];
      assert After(cfg, s, run, 0) == s;
      assert !AcceptableReply(cfg, s, run, 0, k, ok);
    }
  }

  // Step m of the run neither drops the entry nor records another for the key.
  ghost predicate Spares<K, V>(cfg: Config<V>, s: Axis<K, V>, run: seq<Step<K, V>>, m: nat, k: K)
    requires m < |run|
  {
    && run[m] != Invalidate(k)
    && (run[m].Record? ==> var flights := After(cfg, s, run, m).flights;
        run[m].task in flights ==> flights[run[m].task].key != k)
  }

  /** A request caught there does more than answer once: it puts the outdated answer back into the
      invalidated cache, and until that entry is dropped or replaced in its turn a later request is
      given the outdated answer iff it asks within the TTL. */
  lemma {:induction false} StaleRecordResurrects<K, V>(cfg: Config<V>, s: Axis<K, V>, run: seq<Step<K, V>>, n: nat,
                                                       t: Task)
    requires 1 <= n <= |run| && run[0] == Record(t)
    requires t in s.flights && s.flights[t].Read? && s.flights[t].found.Some?
    requires forall m :: 1 <= m < n ==> Spares(cfg, s, run, m, s.flights[t].key)
    ensures var k, after := s.flights[t].key, After(cfg, s, run, n);
      k in after.cache && after.cache[k] == Entry(s.flights[t].found.value, s.now) &&
      forall next :: next !in after.flights ==>
        (Reply(cfg, after, Ask(next, k)) == Some((k, s.flights[t].found)) <==> after.now - s.now < cfg.ttl)
  {
    if n == 1 {
      assert After(cfg, s, run, 0) == s;
    } else {
      StaleRecordResurrects(cfg, s, run, n - 1, t);
      assert Spares(cfg, s, run, n - 1, s.flights[t].key);
    }
    assert After(cfg, s, run, 0) == s;
    TimeAdvances(cfg, s, run, 0, n);
  }
}
