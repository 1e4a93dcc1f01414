/** The cache of chat-model handles keyed by provider identity
    (crates/ox-brain/src/chat_model_registry.rs). */
module ModelRegistry {
  import opened Prelude

  type Handle = nat

  // The key carries a fingerprint of the credential, taken to be injective.
  datatype Fingerprint = NoKey | HashOf(apiKey: string)

  datatype IdentityKey = IdentityKey(provider: string, fingerprint: Fingerprint, baseUrl: Option<string>,
                                     region: Option<string>, model: string)

  datatype Entry = Entry(handle: Handle, lastUsed: nat)

  type Entries = map<IdentityKey, Entry>

  // Saturating at zero.
  function IdleCutoff(now: nat, maxIdle: nat): nat { if now >= maxIdle then now - maxIdle else 0 }

  function Touch(m: Entries, key: IdentityKey, now: nat): Entries
    requires key in m
  {
    m[key := Entry(m[key].handle, now)]
  }

  function OrInsert(m: Entries, key: IdentityKey, e: Entry): Entries {
    if key in m then m else m[key := e]
  }

  function DropIdle(m: Entries, maxIdle: nat, now: nat): Entries {
    map k | k in m && m[k].lastUsed > IdleCutoff(now, maxIdle) :: m[k]
  }

  class ChatModelRegistry {
    var entries: Entries

    constructor ()
      ensures entries == map[]
    {
      entries := map[];
    }

    method Get(key: IdentityKey, now: nat) returns (hit: Option<Handle>)
      modifies this
      ensures hit == if key in old(entries) then Some(old(entries)[key].handle) else None
      ensures entries == if key in old(entries) then Touch(old(entries), key, now) else old(entries)
    {
      if key in entries {
        entries := entries[key := entries[key].(lastUsed := now)];
        return Some(entries[key].handle);
      }
      return None;
    }

    method Store(key: IdentityKey, built: Handle, now: nat) returns (handle: Handle)
      modifies this
      ensures entries == OrInsert(old(entries), key, Entry(built, now))
      ensures key in entries && handle == entries[key].handle
    {
      if key !in entries {
        entries := entries[key := Entry(built, now)];
      }
      return entries[key].handle;
    }

    /** With nobody else in between: a cached handle is returned and its use noted, otherwise the
        handle built, if building succeeds, is cached and returned. */
    method GetOrBuild(key: IdentityKey, build: Result<Handle, string>, before: nat, after: nat)
      returns (r: Result<Handle, string>)
      modifies this
      ensures r == if key in old(entries) then Ok(old(entries)[key].handle) else build
      ensures entries == if key in old(entries) then Touch(old(entries), key, before)
                         else if build.Ok? then old(entries)[key := Entry(build.value, after)] else old(entries)
    {
      var hit := Get(key, before);
      if hit.Some? {
        return Ok(hit.value);
      }
      match build {
        case Err(_) => return build;
        case Ok(built) =>
          var handle := Store(key, built, after);
          return Ok(handle);
      }
    }

    method InvalidateIdle(maxIdle: nat, now: nat)
      modifies this
      ensures entries == DropIdle(old(entries), maxIdle, now)
    {
      var cutoff := IdleCutoff(now, maxIdle);
      var rest := entries.Keys;
      while rest != {}
        invariant rest <= old(entries).Keys && rest <= entries.Keys
        invariant entries == map k | k in old(entries) && (k in rest || old(entries)[k].lastUsed > cutoff) ::
          old(entries)[k]
      {
        var k :| k in rest;
        rest := rest - {k};
        if entries[k].lastUsed <= cutoff {
          entries := entries - {k};
        }
      }
    }

    method InvalidateAll()
      modifies this
      ensures entries == map[]
    {
      entries := map[];
    }

    method Invalidate(key: IdentityKey)
      modifies this
      ensures entries == old(entries) - {key}
    {
      entries := entries - {key};
    }
  }

  // ------------------------------------------------------------------
  // Concurrent callers: the build happens outside the map's lock
  // ------------------------------------------------------------------

  type Task = nat

  datatype State = State(entries: Entries, building: map<Task, IdentityKey>)

  // Each event is one access to the map. Readings of the wall clock need not be ordered.
  datatype Event =
    | Get(task: Task, key: IdentityKey, now: nat)
    | Built(task: Task, handle: Handle, now: nat)
    | BuildFailed(task: Task)
    | Invalidate(key: IdentityKey)
    | InvalidateAll
    | InvalidateIdle(maxIdle: nat, now: nat)

  function Apply(s: State, e: Event): State {
    match e
    case Get(task, key, now) =>
      if task in s.building then s
      else if key in s.entries then s.(entries := Touch(s.entries, key, now))
      else s.(building := s.building[task := key])
    case Built(task, handle, now) =>
      if task in s.building then State(OrInsert(s.entries, s.building[task], Entry(handle, now)), s.building - {task})
        else s
    case BuildFailed(task) => s.(building := s.building - {task})
    case Invalidate(key) => s.(entries := s.entries - {key})
    case InvalidateAll => s.(entries := map[])
    case InvalidateIdle(maxIdle, now) => s.(entries := DropIdle(s.entries, maxIdle, now))
  }

  // The state after the first n events of a run that begins with an empty registry.
  function After(run: seq<Event>, n: nat): State
    requires n <= |run|
  {
    if n == 0 then State(map[], map[]) else Apply(After(run, n - 1), run[n - 1])
  }

  // The handle event n returns to a caller asking for `key`: this is the call's linearisation
  // point, the lookup on a hit and the insertion on a miss.
  ghost predicate Returns(run: seq<Event>, n: nat, key: IdentityKey, handle: Handle)
    requires n < |run|
  {
    var s, e := After(run, n), run[n];
    match e
    case Get(task, k, _) => task !in s.building && k == key && key in s.entries && s.entries[key].handle == handle
    case Built(task, built, _) =>
      task in s.building && s.building[task] == key &&
        handle == if key in s.entries then s.entries[key].handle else built
    case _ => false
  }

  ghost predicate Creates(run: seq<Event>, n: nat, key: IdentityKey)
    requires n < |run|
  {
    var s := After(run, n);
    run[n].Built? && run[n].task in s.building && s.building[run[n].task] == key && key !in s.entries
  }

  ghost predicate Hits(run: seq<Event>, n: nat, key: IdentityKey)
    requires n < |run|
  {
    run[n].Get? && run[n].task !in After(run, n).building && run[n].key == key && key in After(run, n).entries
  }

  ghost predicate Removes(run: seq<Event>, n: nat, key: IdentityKey)
    requires n < |run|
  {
    key in After(run, n).entries && key !in After(run, n + 1).entries
  }

  lemma ReturnedIsStored(run: seq<Event>, n: nat, key: IdentityKey, handle: Handle)
    requires n < |run| && Returns(run, n, key, handle)
    ensures key in After(run, n + 1).entries && After(run, n + 1).entries[key].handle == handle
  {
  }

  lemma {:induction false} HandleStays(run: seq<Event>, m: nat, n: nat, key: IdentityKey)
    requires m <= n <= |run| && key in After(run, m).entries && forall r :: m <= r < n ==> !Removes(run, r, key)
    ensures key in After(run, n).entries && After(run, n).entries[key].handle == After(run, m).entries[key].handle
  {
    if m < n {
      HandleStays(run, m, n - 1, key);
      assert !Removes(run, n - 1, key);
    }
  }

  // A stored handle comes from the event that created the entry; nothing removed it since.
  lemma {:induction false} HandleOrigin(run: seq<Event>, n: nat, key: IdentityKey) returns (i: nat)
    requires n <= |run| && key in After(run, n).entries
    ensures i < n && Creates(run, i, key) && After(run, n).entries[key].handle == run[i].handle
    ensures forall r :: i < r < n ==> !Removes(run, r, key)
  {
    if key in After(run, n - 1).entries {
      i := HandleOrigin(run, n - 1, key);
    } else {
      i := n - 1;
    }
  }

  // No handle is built twice.
  ghost predicate DistinctBuilds(run: seq<Event>) {
    forall i, j :: 0 <= i < j < |run| && run[i].Built? && run[j].Built? ==> run[i].handle != run[j].handle
  }

  /** Two calls for one identity return one handle iff the identity was not removed between their
      linearisation points, however hits, racing builds and evictions interleave. */
  lemma HandleUniqueness(run: seq<Event>, m: nat, n: nat, key: IdentityKey, g: Handle, h: Handle)
    requires m < n < |run| && Returns(run, m, key, g) && Returns(run, n, key, h) && DistinctBuilds(run)
    ensures g == h <==> forall r :: m < r < n ==> !Removes(run, r, key)
  {
    if r :| m < r < n && Removes(run, r, key) {
      RemovalChangesHandle(run, m, r, n, key, g, h);
    } else {
      ReturnedIsStored(run, m, key, g);
      ReturnedIsStored(run, n, key, h);
      HandleStays(run, m + 1, n, key);
    }
  }

  lemma RemovalChangesHandle(run: seq<Event>, m: nat, r: nat, n: nat, key: IdentityKey, g: Handle, h: Handle)
    requires m < r < n < |run| && Returns(run, m, key, g) && Returns(run, n, key, h) && DistinctBuilds(run)
    requires Removes(run, r, key)
    ensures g != h
  {
    ReturnedIsStored(run, m, key, g);
    ReturnedIsStored(run, n, key, h);
    var i := HandleOrigin(run, m + 1, key);
    var j := HandleOrigin(run, n + 1, key);
    assert j > r;
  }

  /** An entry's age counts from the hit or creation that touched it last. */
  lemma {:induction false} LastTouch(run: seq<Event>, n: nat, key: IdentityKey) returns (i: nat)
    requires n <= |run| && key in After(run, n).entries
    ensures i < n && (Creates(run, i, key) || Hits(run, i, key)) && After(run, n).entries[key].lastUsed == run[i].now
    ensures forall j :: i < j < n ==> !Creates(run, j, key) && !Hits(run, j, key)
  {
    if Creates(run, n - 1, key) || Hits(run, n - 1, key) {
      i := n - 1;
    } else {
      i := LastTouch(run, n - 1, key);
    }
  }

  /** A sweep removes exactly the entries whose last touch is idle for at least the limit; while the clock
      has not reached the limit, the cutoff saturates and only entries touched at zero go. */
  lemma SweepExact(run: seq<Event>, n: nat, key: IdentityKey) returns (i: nat)
    requires n < |run| && run[n].InvalidateIdle? && key in After(run, n).entries
    ensures i < n && (Creates(run, i, key) || Hits(run, i, key)) && forall j :: i < j < n ==>
      !Creates(run, j, key) && !Hits(run, j, key)
    ensures run[n].now < run[n].maxIdle ==> (Removes(run, n, key) <==> run[i].now == 0)
    ensures run[n].now >= run[n].maxIdle ==> (Removes(run, n, key) <==> run[n].now - run[i].now >= run[n].maxIdle)
  {
    i := LastTouch(run, n, key);
  }

  // Two callers miss; one builds at once, the other much later; then the registry is swept.
  function LateBuilder(key: IdentityKey, start: nat, maxIdle: nat, delay: nat): seq<Event> {
    [Get(0, key, start), Get(1, key, start), Built(0, 0, start), Built(1, 1, start + delay),
      InvalidateIdle(maxIdle, start + delay)]
  }

  /** A caller that loses the race to insert does not refresh the entry it is given: an entry can
      be swept as idle in the very second it was returned. */
  lemma LoserDoesNotRefresh(key: IdentityKey, start: nat, maxIdle: nat, delay: nat)
    requires delay >= maxIdle
    ensures var run := LateBuilder(key, start, maxIdle, delay);
      Returns(run, 3, key, 0) && run[3].now == run[4].now && Removes(run, 4, key)
  {
    var run := LateBuilder(key, start, maxIdle, delay);
    var e := map[key := Entry(0, start)];
    assert After(run, 0) == State(map[], map[]);
    assert After(run, 1) == State(map[], map[0 := key]);
    assert After(run, 2) == State(map[], map[0 := key, 1 := key]);
    assert map[0 := key, 1 := key] - {0} == map[1 := key];
    assert After(run, 3) == State(e, map[1 := key]);
    assert map[1 := key] - {1} == map[];
    assert After(run, 4) == State(e, map[]);
    assert After(run, 5).entries == map[];
  }
}
