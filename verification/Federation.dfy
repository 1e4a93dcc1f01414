/** One workspace's federation resolver: hydrated once from the store, then kept in step with it
    by upserts that write both under one lock (crates/ox-api/src/federation_resolver.rs and
    crates/ox-api/src/state.rs). */
module Federation {

  type SourceId = string

  // A stored row's kind tag and body, as one opaque value.
  type Config = string

  // An adapter is known by the configuration it was built from.
  datatype Adapter = Adapter(config: Config)

  type Store = map<SourceId, Config>
  type Resolver = map<SourceId, Adapter>

  // The adapters the store describes, but for rows whose adapter could not be built.
  function View(store: Store, skipped: set<SourceId>): Resolver {
    map s | s in store && s !in skipped :: Adapter(store[s])
  }

  // ------------------------------------------------------------------
  // Hydration
  // ------------------------------------------------------------------

  datatype Stored = Stored(source: SourceId, config: Config)

  ghost predicate RowsOf(rows: seq<Stored>, store: Store) {
    && (forall s :: s in store <==> exists i :: 0 <= i < |rows| && rows[i].source == s)
    && (forall i :: 0 <= i < |rows| ==> rows[i].source in store && rows[i].config == store[rows[i].source])
    && (forall i, j :: 0 <= i < j < |rows| ==> rows[i].source != rows[j].source)
  }

  class AdapterResolver {
    var adapters: Resolver

    constructor ()
      ensures adapters == map[]
    {
      adapters := map[];
    }

    method Register(source: SourceId, adapter: Adapter)
      modifies this
      ensures adapters == old(adapters)[source := adapter]
    {
      adapters := adapters[source := adapter];
    }
  }

  // Registering the first `n` rows whose adapters come up, in order.
  function Registered(rows: seq<Stored>, builds: seq<bool>, n: nat): Resolver
    requires n <= |rows| == |builds|
  {
    if n == 0 then map[]
    else if builds[n - 1] then Registered(rows, builds, n - 1)[rows[n - 1].source := Adapter(rows[n - 1].config)]
    else Registered(rows, builds, n - 1)
  }

  function Skipped(rows: seq<Stored>, builds: seq<bool>): set<SourceId>
    requires |rows| == |builds|
  {
    set i | 0 <= i < |rows| && !builds[i] :: rows[i].source
  }

  lemma {:induction false} RegisteredSources(rows: seq<Stored>, builds: seq<bool>, n: nat, store: Store)
    requires n <= |rows| == |builds| && RowsOf(rows, store)
    ensures forall s :: s in Registered(rows, builds, n) <==> exists k :: 0 <= k < n && builds[k] && rows[k].source == s
    ensures forall s :: s in Registered(rows, builds, n) ==>
      s in store && Registered(rows, builds, n)[s] == Adapter(store[s])
  {
    if n > 0 {
      RegisteredSources(rows, builds, n - 1, store);
    }
  }

  lemma RegisteredIsView(rows: seq<Stored>, builds: seq<bool>, store: Store)
    requires |rows| == |builds| && RowsOf(rows, store)
    ensures Registered(rows, builds, |rows|) == View(store, Skipped(rows, builds))
  {
    RegisteredSources(rows, builds, |rows|, store);
    var r, v := Registered(rows, builds, |rows|), View(store, Skipped(rows, builds));
    forall s | s in r ensures s in v {
      var k :| 0 <= k < |rows| && builds[k] && rows[k].source == s;
      assert forall j :: 0 <= j < |rows| && rows[j].source == s ==> j == k;
    }
    forall s | s in v ensures s in r {
      var k :| 0 <= k < |rows| && rows[k].source == s;
      assert builds[k];
    }
    assert r.Keys == v.Keys;
  }

  // `builds` says which rows' adapters come up; the others are skipped with a warning.
  method HydrateWorkspace(rows: seq<Stored>, builds: seq<bool>, ghost store: Store) returns (resolver: AdapterResolver)
    requires RowsOf(rows, store) && |builds| == |rows|
    ensures fresh(resolver) && resolver.adapters == View(store, Skipped(rows, builds))
  {
    resolver := new AdapterResolver();
    var i := 0;
    while i < |rows|
      invariant 0 <= i <= |rows| && fresh(resolver)
      invariant resolver.adapters == Registered(rows, builds, i)
    {
      if builds[i] {
        resolver.Register(rows[i].source, Adapter(rows[i].config));
      }
      i := i + 1;
    }
    RegisteredIsView(rows, builds, store);
  }

  // What the store and the adapter builders answer during one operation: the listed rows and
  // which of them come up, and whether each call succeeds.
  datatype World = World(rows: seq<Stored>, builds: seq<bool>, built: bool, listed: bool, found: bool, written: bool)

  // One workspace, its operations one at a time. A null resolver is an uninitialised slot;
  // `skipped` are the rows that failed to come up and have not been upserted since.
  class Workspace {
    var store: Store
    var resolver: AdapterResolver?
    ghost var skipped: set<SourceId>

    ghost predicate Valid()
      reads this, resolver
    {
      resolver != null ==> resolver.adapters == View(store, skipped)
    }

    ghost predicate Lists(w: World)
      reads this
    {
      RowsOf(w.rows, store) && |w.builds| == |w.rows|
    }

    constructor (store: Store)
      ensures Valid() && this.store == store && resolver == null
    {
      this.store, resolver := store, null;
    }

    method GetOrInit(w: World) returns (ok: bool)
      requires Valid() && Lists(w)
      modifies this`resolver, this`skipped
      ensures Valid() && (ok <==> resolver != null) && (ok <==> old(resolver) != null || w.listed)
      ensures old(resolver) != null ==> resolver == old(resolver) && skipped == old(skipped)
      ensures old(resolver) == null ==>
        (resolver == null || fresh(resolver)) && skipped == if ok then Skipped(w.rows, w.builds) else old(skipped)
    {
      if resolver == null {
        if !w.listed {
          return false;
        }
        resolver := HydrateWorkspace(w.rows, w.builds, store);
        skipped := Skipped(w.rows, w.builds);
      }
      return true;
    }

    /** A query gets a copy of the hydratable view of the store. */
    method EnsureResolver(w: World) returns (r: Outcome)
      requires Valid() && Lists(w)
      modifies this`resolver, this`skipped
      ensures Valid() && (r == Failed <==> old(resolver) == null && !w.listed)
      ensures r != Failed ==> r == Snapshot(View(store, skipped))
      ensures old(resolver) != null ==> resolver == old(resolver) && skipped == old(skipped)
      ensures old(resolver) == null && w.listed ==> resolver != null && skipped == Skipped(w.rows, w.builds)
    {
      var ok := GetOrInit(w);
      if !ok {
        return Failed;
      }
      return Snapshot(resolver.adapters);
    }

    /** An upsert either fails before the store has changed, or it changes store and resolver
        together and reports whether the store held the source before. */
    method UpsertAdapter(source: SourceId, config: Config, w: World) returns (r: Outcome)
      requires Valid() && Lists(w)
      modifies this, resolver
      ensures Valid() && r == if w.built && (old(resolver) != null || w.listed) && w.found &&
        w.written then Replaced(source in old(store)) else Failed
      ensures r == Failed ==> store == old(store)
      ensures r == Failed && old(resolver) != null ==> skipped == old(skipped)
      ensures r == Failed && old(resolver) == null ==>
        if w.built && w.listed then resolver != null && skipped == Skipped(w.rows, w.builds) else resolver == null
      ensures r != Failed ==> store == old(store)[source := config] && resolver != null
      ensures r != Failed ==> source in resolver.adapters && resolver.adapters[source] == Adapter(config)
      ensures old(resolver) != null ==> resolver == old(resolver)
      ensures r != Failed && old(resolver) != null ==> skipped == old(skipped) - {source}
      ensures r != Failed && old(resolver) == null ==> skipped == Skipped(w.rows, w.builds) - {source}
    {
      if !w.built {
        return Failed;
      }
      var adapter := Adapter(config);
      var ok := GetOrInit(w);
      if !ok || !w.found {
        return Failed;
      }
      var replaced := source in store;
      if !w.written {
        return Failed;
      }
      store := store[source := config];
      resolver.Register(source, adapter);
      skipped := skipped - {source};
      return Replaced(replaced);
    }
  }

  // ------------------------------------------------------------------
  // Upserts and first accesses under every interleaving
  // ------------------------------------------------------------------

  datatype Job = Upsert(source: SourceId, config: Config) | Access

  datatype Outcome = Failed | Replaced(replaced: bool) | Snapshot(adapters: Resolver)

  // Where an operation stands between two await points. From Finding to Registering it holds
  // the resolver's write lock, in Reading its read lock.
  datatype Task =
    | Building(source: SourceId, config: Config)
    | Starting(job: Job)
    | Listing(job: Job)
    | Hydrating(job: Job, rows: Store)
    | Queued(job: Job)
    | Finding(source: SourceId, config: Config)
    | Found(source: SourceId, config: Config, replaced: bool)
    | Written(source: SourceId, config: Config, replaced: bool)
    | Registering(source: SourceId, config: Config, replaced: bool)
    | Reading
    | Finished(outcome: Outcome)

  type TaskId = nat

  // The slot's once-cell; whoever initialises it holds its only permit.
  datatype Cell = Cold | Initialising(task: TaskId) | Hot

  // `skipped` are the rows that failed to hydrate and have not been upserted since; `commits`
  // counts initialisations of the cell.
  datatype Sys = Sys(store: Store, cell: Cell, resolver: Resolver, skipped: set<SourceId>,
                     tasks: map<TaskId, Task>, commits: nat)

  datatype Label =
    | SpawnUpsert(t: TaskId, source: SourceId, config: Config)
    | SpawnAccess(t: TaskId)
    | Build(t: TaskId, ok: bool)
    | EnterCell(t: TaskId)
    | List(t: TaskId, ok: bool)
    | Commit(t: TaskId, failed: set<SourceId>)
    | LockWrite(t: TaskId)
    | Find(t: TaskId, ok: bool)
    | Write(t: TaskId, ok: bool)
    | Register(t: TaskId)
    | Unlock(t: TaskId)
    | LockRead(t: TaskId)
    | Clone(t: TaskId)

  predicate Writing(task: Task) {
    task.Finding? || task.Found? || task.Written? || task.Registering?
  }

  ghost predicate NoWriter(s: Sys) {
    forall t :: t in s.tasks ==> !Writing(s.tasks[t])
  }

  ghost predicate NoReader(s: Sys) {
    forall t :: t in s.tasks ==> !s.tasks[t].Reading?
  }

  ghost predicate Allowed(s: Sys, l: Label) {
    match l
    case SpawnUpsert(t, _, _) => t !in s.tasks
    case SpawnAccess(t) => t !in s.tasks
    case Build(t, _) => t in s.tasks && s.tasks[t].Building?
    case EnterCell(t) => t in s.tasks && s.tasks[t].Starting? && !s.cell.Initialising?
    case List(t, _) => t in s.tasks && s.tasks[t].Listing?
    case Commit(t, failed) => t in s.tasks && s.tasks[t].Hydrating? && failed <= s.tasks[t].rows.Keys
    case LockWrite(t) => t in s.tasks && s.tasks[t].Queued? && s.tasks[t].job.Upsert? && NoWriter(s) && NoReader(s)
    case Find(t, _) => t in s.tasks && s.tasks[t].Finding?
    case Write(t, _) => t in s.tasks && s.tasks[t].Found?
    case Register(t) => t in s.tasks && s.tasks[t].Written?
    case Unlock(t) => t in s.tasks && s.tasks[t].Registering?
    case LockRead(t) => t in s.tasks && s.tasks[t].Queued? && s.tasks[t].job.Access? && NoWriter(s)
    case Clone(t) => t in s.tasks && s.tasks[t].Reading?
  }

  function SetTask(s: Sys, t: TaskId, task: Task): Sys {
    s.(tasks := s.tasks[t := task])
  }

  // A store call that fails has no effect; it ends the operation, releasing what it held.
  function Next(s: Sys, l: Label): Sys
    requires Allowed(s, l)
  {
    match l
    case SpawnUpsert(t, source, config) => SetTask(s, t, Building(source, config))
    case SpawnAccess(t) => SetTask(s, t, Starting(Access))
    case Build(t, ok) =>
      SetTask(s, t, if ok then Starting(Upsert(s.tasks[t].source, s.tasks[t].config)) else Finished(Failed))
    case EnterCell(t) =>
      if s.cell.Hot? then SetTask(s, t, Queued(s.tasks[t].job))
      else SetTask(s, t, Listing(s.tasks[t].job)).(cell := Initialising(t))
    case List(t, ok) =>
      if ok then SetTask(s, t, Hydrating(s.tasks[t].job, s.store))
      else SetTask(s, t, Finished(Failed)).(cell := Cold)
    case Commit(t, failed) =>
      SetTask(s, t, Queued(s.tasks[t].job))
        .(cell := Hot, resolver := View(s.tasks[t].rows, failed), skipped := failed, commits := s.commits + 1)
    case LockWrite(t) => SetTask(s, t, Finding(s.tasks[t].job.source, s.tasks[t].job.config))
    case Find(t, ok) =>
      var source := s.tasks[t].source;
      SetTask(s, t, if ok then Found(source, s.tasks[t].config, source in s.store) else Finished(Failed))
    case Write(t, ok) =>
      var source, config := s.tasks[t].source, s.tasks[t].config;
      if ok then SetTask(s, t, Written(source, config, s.tasks[t].replaced)).(store := s.store[source := config])
      else SetTask(s, t, Finished(Failed))
    case Register(t) =>
      var source, config := s.tasks[t].source, s.tasks[t].config;
      SetTask(s, t, Registering(source, config, s.tasks[t].replaced))
        .(resolver := s.resolver[source := Adapter(config)], skipped := s.skipped - {source})
    case Unlock(t) => SetTask(s, t, Finished(Replaced(s.tasks[t].replaced)))
    case LockRead(t) => SetTask(s, t, Reading)
    case Clone(t) => SetTask(s, t, Finished(Snapshot(s.resolver)))
  }

  ghost predicate Start(s: Sys) {
    s.cell == Cold && s.tasks == map[] && s.commits == 0
  }

  ghost predicate Run(states: seq<Sys>, labels: seq<Label>) {
    && |states| == |labels| + 1 && Start(states[0])
    && forall i :: 0 <= i < |labels| ==> Transition(states[i], labels[i], states[i + 1])
  }

  ghost predicate Transition(s: Sys, l: Label, s': Sys) {
    Allowed(s, l) && s' == Next(s, l)
  }

  // ------------------------------------------------------------------
  // What every step keeps
  // ------------------------------------------------------------------

  predicate Past(task: Task) {
    task.Queued? || Writing(task) || task.Reading?
  }

  // What the phase of one task says about the shared state.
  predicate TaskFine(s: Sys, t: TaskId, task: Task) {
    && (task.Listing? || task.Hydrating? <==> s.cell == Initialising(t))
    && (task.Hydrating? ==> task.rows == s.store)
    && (Past(task) ==> s.cell.Hot?)
    && (task.Found? ==> (task.replaced <==> task.source in s.store))
    && (task.Written? || task.Registering? ==> task.source in s.store && s.store[task.source] == task.config)
    && (task.Registering? ==> task.source in s.resolver && s.resolver[task.source] == Adapter(task.config))
  }

  ghost predicate TasksFine(s: Sys) {
    forall t :: t in s.tasks ==> TaskFine(s, t, s.tasks[t])
  }

  predicate Excludes(a: Task, b: Task) {
    (Writing(a) && (Writing(b) || b.Reading?)) || (a.Reading? && Writing(b))
  }

  ghost predicate OneWriter(tasks: map<TaskId, Task>) {
    forall t, t' :: t in tasks && t' in tasks && t != t' ==> !Excludes(tasks[t], tasks[t'])
  }

  // Someone has written the store and not yet the resolver.
  ghost predicate Pending(s: Sys, source: SourceId) {
    exists t :: t in s.tasks && s.tasks[t].Written? && s.tasks[t].source == source
  }

  // Outside the source being written the resolver is the hydratable view of the store.
  ghost predicate Agrees(s: Sys) {
    s.cell.Hot? ==>
      forall source :: !Pending(s, source) ==>
        (source in s.resolver <==> source in s.store && source !in s.skipped)
        && (source in s.resolver ==> s.resolver[source] == Adapter(s.store[source]))
  }

  ghost predicate Invariant(s: Sys) {
    TasksFine(s) && OneWriter(s.tasks) && Agrees(s) && (s.cell.Hot? <==> s.commits == 1) && s.commits <= 1
    && (s.cell.Initialising? ==> s.cell.task in s.tasks)
  }

  lemma OtherTaskFine(s: Sys, l: Label, t: TaskId)
    requires TasksFine(s) && OneWriter(s.tasks) && Allowed(s, l) && t in s.tasks && t != l.t
    requires s.cell.Initialising? ==> s.cell.task in s.tasks
    ensures t in Next(s, l).tasks && TaskFine(Next(s, l), t, Next(s, l).tasks[t])
  {
    assert TaskFine(s, t, s.tasks[t]);
    if l.t in s.tasks {
      assert TaskFine(s, l.t, s.tasks[l.t]);
    }
  }

  lemma OwnTaskFine(s: Sys, l: Label)
    requires TasksFine(s) && Allowed(s, l) && (s.cell.Initialising? ==> s.cell.task in s.tasks)
    ensures l.t in Next(s, l).tasks && TaskFine(Next(s, l), l.t, Next(s, l).tasks[l.t])
  {
    if l.t in s.tasks {
      assert TaskFine(s, l.t, s.tasks[l.t]);
    }
  }

  lemma TasksFineStep(s: Sys, l: Label)
    requires Invariant(s) && Allowed(s, l)
    ensures TasksFine(Next(s, l))
  {
    forall t | t in Next(s, l).tasks ensures TaskFine(Next(s, l), t, Next(s, l).tasks[t]) {
      if t == l.t {
        OwnTaskFine(s, l);
      } else {
        OtherTaskFine(s, l, t);
      }
    }
  }

  lemma OneWriterSet(tasks: map<TaskId, Task>, t: TaskId, task: Task)
    requires OneWriter(tasks) && forall t' :: t' in tasks && t' != t ==> !Excludes(tasks[t'], task)
    ensures OneWriter(tasks[t := task])
  {
  }

  lemma OneWriterStep(s: Sys, l: Label)
    requires OneWriter(s.tasks) && Allowed(s, l)
    ensures OneWriter(Next(s, l).tasks)
  {
    var task := Next(s, l).tasks[l.t];
    assert Next(s, l).tasks == s.tasks[l.t := task];
    assert Writing(task) ==> l.LockWrite? || Writing(s.tasks[l.t]);
    assert task.Reading? ==> l.LockRead?;
    OneWriterSet(s.tasks, l.t, task);
  }

  lemma AgreesStep(s: Sys, l: Label)
    requires Invariant(s) && Allowed(s, l)
    ensures Agrees(Next(s, l))
  {
    var s' := Next(s, l);
    if l.t in s.tasks {
      assert TaskFine(s, l.t, s.tasks[l.t]);
    }
    forall source | s'.cell.Hot? && !Pending(s', source)
      ensures source in s'.resolver <==> source in s'.store && source !in s'.skipped
      ensures source in s'.resolver ==> s'.resolver[source] == Adapter(s'.store[source])
    {
      PendingStep(s, l, source);
    }
  }

  lemma PendingStep(s: Sys, l: Label, source: SourceId)
    requires Invariant(s) && Allowed(s, l) && !Pending(Next(s, l), source)
    ensures !Pending(s, source) || (l.Register? && s.tasks[l.t].source == source)
    ensures l.Write? && l.ok ==> s.tasks[l.t].source != source
  {
    if l.Write? && l.ok {
      WriteIsPending(s, l);
    }
    if t :| t in s.tasks && s.tasks[t].Written? && s.tasks[t].source == source {
      if t != l.t {
        OthersKept(s, l, t);
      }
    }
  }

  lemma OthersKept(s: Sys, l: Label, t: TaskId)
    requires Allowed(s, l) && t in s.tasks && t != l.t
    ensures t in Next(s, l).tasks && Next(s, l).tasks[t] == s.tasks[t]
  {
  }

  lemma WriteIsPending(s: Sys, l: Label)
    requires Allowed(s, l) && l.Write? && l.ok
    ensures Pending(Next(s, l), s.tasks[l.t].source)
  {
    assert Next(s, l).tasks[l.t].Written?;
  }

  lemma InvariantStep(s: Sys, l: Label)
    requires Invariant(s) && Allowed(s, l)
    ensures Invariant(Next(s, l))
  {
    TasksFineStep(s, l);
    OneWriterStep(s, l);
    AgreesStep(s, l);
    if l.t in s.tasks {
      assert TaskFine(s, l.t, s.tasks[l.t]);
    }
  }

  lemma {:induction false} InvariantAlways(states: seq<Sys>, labels: seq<Label>, i: nat)
    requires Run(states, labels) && i <= |labels|
    ensures Invariant(states[i])
  {
    if i > 0 {
      InvariantAlways(states, labels, i - 1);
      assert Transition(states[i - 1], labels[i - 1], states[i]);
      InvariantStep(states[i - 1], labels[i - 1]);
    }
  }

  /** The slot is initialised at most once, whoever gets there first, and a cold slot's store is
      the one the run started with: nobody writes before hydration has committed. */
  lemma {:induction false} HydratedOnceBeforeWrites(states: seq<Sys>, labels: seq<Label>, i: nat)
    requires Run(states, labels) && i <= |labels|
    ensures states[i].commits <= 1 && (states[i].commits == 1 <==> states[i].cell.Hot?)
    ensures !states[i].cell.Hot? ==> states[i].store == states[0].store
    ensures i < |labels| && labels[i].Write? ==> states[i].cell.Hot?
  {
    InvariantAlways(states, labels, i);
    if i > 0 {
      HydratedOnceBeforeWrites(states, labels, i - 1);
      assert Transition(states[i - 1], labels[i - 1], states[i]);
    }
    if i < |labels| {
      assert Transition(states[i], labels[i], states[i + 1]);
      assert labels[i].Write? ==> TaskFine(states[i], labels[i].t, states[i].tasks[labels[i].t]);
    }
  }

  /** Whenever no upsert is between its store write and its register, and so whenever the
      resolver's write lock is free, the hydrated resolver is the hydratable view of the store. */
  lemma ResolverAgreesWithStore(states: seq<Sys>, labels: seq<Label>, i: nat)
    requires Run(states, labels) && i <= |labels| && states[i].cell.Hot?
    requires NoWriter(states[i]) || forall source :: !Pending(states[i], source)
    ensures states[i].resolver == View(states[i].store, states[i].skipped)
  {
    InvariantAlways(states, labels, i);
    var s := states[i];
    forall source ensures !Pending(s, source) {}
    assert s.resolver.Keys == View(s.store, s.skipped).Keys;
  }

  /** A query gets the hydratable view of the store as of the moment it copies the resolver. */
  lemma SnapshotIsCurrent(states: seq<Sys>, labels: seq<Label>, i: nat)
    requires Run(states, labels) && i < |labels| && labels[i].Clone?
    ensures labels[i].t in states[i + 1].tasks
    ensures states[i + 1].tasks[labels[i].t] == Finished(Snapshot(View(states[i].store, states[i].skipped)))
  {
    assert Transition(states[i], labels[i], states[i + 1]);
    InvariantAlways(states, labels, i);
    assert TaskFine(states[i], labels[i].t, states[i].tasks[labels[i].t]);
    ResolverAgreesWithStore(states, labels, i);
  }

  // Step `i` is the store write of `source` by task `t`.
  ghost predicate Writes(s: Sys, l: Label, t: TaskId, source: SourceId, config: Config) {
    l == Label.Write(t, true) && t in s.tasks && s.tasks[t].Found? && s.tasks[t].source == source &&
      s.tasks[t].config == config
  }

  lemma {:induction false} WrittenEarlier(states: seq<Sys>, labels: seq<Label>, j: nat, t: TaskId) returns (i: nat)
    requires Run(states, labels) && j <= |labels| && t in states[j].tasks
    requires states[j].tasks[t].Written? || states[j].tasks[t].Registering?
    ensures i < j && Writes(states[i], labels[i], t, states[j].tasks[t].source, states[j].tasks[t].config)
    ensures states[j].tasks[t].replaced <==> states[j].tasks[t].source in states[i].store
  {
    assert Transition(states[j - 1], labels[j - 1], states[j]);
    if labels[j - 1].t == t && labels[j - 1].Write? {
      i := j - 1;
      InvariantAlways(states, labels, i);
      assert TaskFine(states[i], t, states[i].tasks[t]);
    } else {
      i := WrittenEarlier(states, labels, j - 1, t);
    }
  }

  /** An upsert that completes reports whether the store held its source just before its own
      write, and leaves its configuration in both places. */
  lemma UpsertLands(states: seq<Sys>, labels: seq<Label>, j: nat) returns (i: nat)
    requires Run(states, labels) && j < |labels| && labels[j].Unlock?
    ensures labels[j].t in states[j].tasks && states[j].tasks[labels[j].t].Registering?
    ensures var source, config := states[j].tasks[labels[j].t].source, states[j].tasks[labels[j].t].config;
      && i < j && Writes(states[i], labels[i], labels[j].t, source, config)
      && states[j + 1].tasks[labels[j].t] == Finished(Replaced(source in states[i].store))
      && source in states[j].store && states[j].store[source] == config
      && source in states[j].resolver && states[j].resolver[source] == Adapter(config)
  {
    assert Transition(states[j], labels[j], states[j + 1]);
    i := WrittenEarlier(states, labels, j, labels[j].t);
    InvariantAlways(states, labels, j);
    assert TaskFine(states[j], labels[j].t, states[j].tasks[labels[j].t]);
  }

  ghost predicate WritesSource(s: Sys, l: Label, source: SourceId) {
    l.Write? && l.ok && l.t in s.tasks && s.tasks[l.t].Found? && s.tasks[l.t].source == source
  }

  // A configuration stands in the store and, once nobody is writing its source, for the resolver.
  ghost predicate Stands(s: Sys, source: SourceId, config: Config) {
    && s.cell.Hot? && source in s.store && s.store[source] == config
    && (Pending(s, source) || source !in s.skipped)
  }

  lemma WriteLands(s: Sys, l: Label, t: TaskId, source: SourceId, config: Config)
    requires Invariant(s) && Allowed(s, l) && Writes(s, l, t, source, config)
    ensures Stands(Next(s, l), source, config)
  {
    assert TaskFine(s, t, s.tasks[t]);
    WriteIsPending(s, l);
  }

  lemma StoreStands(s: Sys, l: Label, source: SourceId)
    requires Invariant(s) && Allowed(s, l) && s.cell.Hot? && source in s.store && !WritesSource(s, l, source)
    ensures Next(s, l).cell.Hot? && source in Next(s, l).store && Next(s, l).store[source] == s.store[source]
    ensures source in Next(s, l).skipped ==> source in s.skipped && !(l.Register? && s.tasks[l.t].source == source)
  {
    if l.t in s.tasks {
      assert TaskFine(s, l.t, s.tasks[l.t]);
    }
  }

  lemma StandsStep(s: Sys, l: Label, source: SourceId, config: Config)
    requires Invariant(s) && Allowed(s, l) && Stands(s, source, config) && !WritesSource(s, l, source)
    ensures Stands(Next(s, l), source, config)
  {
    StoreStands(s, l, source);
    if !Pending(Next(s, l), source) {
      PendingStep(s, l, source);
    }
  }

  lemma {:induction false} WriteStands(states: seq<Sys>, labels: seq<Label>, i: nat, j: nat, t: TaskId,
                                       source: SourceId, config: Config)
    requires Run(states, labels) && i < j <= |labels| && Writes(states[i], labels[i], t, source, config)
    requires forall k :: i < k < j ==> !WritesSource(states[k], labels[k], source)
    ensures Stands(states[j], source, config)
  {
    assert Transition(states[j - 1], labels[j - 1], states[j]);
    InvariantAlways(states, labels, j - 1);
    if j == i + 1 {
      WriteLands(states[i], labels[i], t, source, config);
    } else {
      WriteStands(states, labels, i, j - 1, t, source, config);
      StandsStep(states[j - 1], labels[j - 1], source, config);
    }
  }

  /** The last write to a source wins in both places: in the store at once, in the resolver as
      soon as the write lock under which it was made has registered it. */
  lemma LastWriteWins(states: seq<Sys>, labels: seq<Label>, i: nat, j: nat, t: TaskId, source: SourceId, config: Config)
    requires Run(states, labels) && i < j <= |labels| && Writes(states[i], labels[i], t, source, config)
    requires forall k :: i < k < j ==> !WritesSource(states[k], labels[k], source)
    ensures source in states[j].store && states[j].store[source] == config
    ensures !Pending(states[j], source) ==>
      source in states[j].resolver && states[j].resolver[source] == Adapter(config)
  {
    WriteStands(states, labels, i, j, t, source, config);
    InvariantAlways(states, labels, j);
  }
}
