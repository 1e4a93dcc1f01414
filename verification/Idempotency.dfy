/** The Idempotency-Key layer in front of mutating endpoints (crates/ox-api/src/idempotency.rs) over
    the store of recorded responses (crates/ox-store/src/postgres/idempotency.rs). */
module Idempotency {
  import opened Prelude

  const MAX_BUFFERED_REQUEST_BYTES := 1024 * 1024
  const MAX_BUFFERED_RESPONSE_BYTES := 2 * 1024 * 1024
  const REPLAY_TTL := 24 * 60 * 60 * 1000
  const HEADER := "idempotency-key"
  const CONTENT_TYPE := "content-type"
  const REPLAY_MARK := "idempotent-replay"
  const OCTET_STREAM := "application/octet-stream"

  // SHA-256, taken to be injective.
  datatype Digest = Sha256(bytes: seq<Byte>)

  type UserId = nat
  type WorkspaceId = nat
  type Headers = map<string, string>

  datatype Principal = Principal(apiKey: bool, userId: Option<UserId>)

  datatype Request = Request(verb: string, path: string, headers: Headers, principal: Option<Principal>,
                             workspace: Option<WorkspaceId>, body: seq<Byte>)

  datatype Response = Response(status: nat, headers: Headers, body: seq<Byte>)

  datatype Scope = Scope(workspace: WorkspaceId, user: UserId, verb: string, path: string, key: string)

  datatype Error = StreamingUnsupported | Unauthorized | WorkspaceMissing | BodyTooLarge | StoreFailed | KeyReused

  // ------------------------------------------------------------------
  // Headers and paths
  // ------------------------------------------------------------------

  // A header value is readable as text when it holds visible ASCII and tabs only.
  function ToStr(v: string): Option<string> {
    if forall i :: 0 <= i < |v| ==> v[i] == '\t' || ' ' <= v[i] <= '~' then Some(v) else None
  }

  predicate Blank(c: char) { c == ' ' || c == '\t' }

  function TrimStart(s: string): string {
    if s != [] && Blank(s[0]) then TrimStart(s[1..]) else s
  }

  function TrimEnd(s: string): string {
    if s != [] && Blank(s[|s| - 1]) then TrimEnd(s[..|s| - 1]) else s
  }

  function ExtractKey(headers: Headers): Option<string> {
    if HEADER !in headers then None
    else match ToStr(headers[HEADER])
      case None => None
      case Some(v) =>
        var key := TrimEnd(TrimStart(v));
        if key == "" || |key| > 255 then None else Some(key)
  }

  predicate EndsWith(s: string, suffix: string) {
    |s| >= |suffix| && s[|s| - |suffix|..] == suffix
  }

  predicate IsStreamingPath(path: string) { EndsWith(path, "/stream") }

  function ReadableContentType(headers: Headers): Option<string> {
    if CONTENT_TYPE in headers then ToStr(headers[CONTENT_TYPE]) else None
  }

  predicate IsStreaming(headers: Headers) {
    ReadableContentType(headers).Some? && "text/event-stream" <= ReadableContentType(headers).value
  }

  // ------------------------------------------------------------------
  // Requests in, responses out
  // ------------------------------------------------------------------

  // Whether a request goes to the handler unprotected, is refused, or is protected in a scope.
  datatype Gate = Bypass | Refuse(error: Error) | Protect(scope: Scope)

  function GateOf(req: Request): Gate {
    var key := ExtractKey(req.headers);
    if key.None? then Bypass
    else if IsStreamingPath(req.path) then Refuse(StreamingUnsupported)
    else if req.principal.None? then Refuse(Unauthorized)
    else if req.workspace.None? then Refuse(WorkspaceMissing)
    else if req.principal.value.apiKey then Bypass
    else if req.principal.value.userId.None? then Refuse(Unauthorized)
    else if |req.body| > MAX_BUFFERED_REQUEST_BYTES then Refuse(BodyTooLarge)
    else Protect(Scope(req.workspace.value, req.principal.value.userId.value, req.verb, req.path, key.value))
  }

  datatype Record = Record(digest: Digest, status: nat, body: seq<Byte>, contentType: Option<string>, expiresAt: Time)

  type Records = map<Scope, Record>

  function RecordOf(digest: Digest, resp: Response, now: Time): Record {
    Record(digest, resp.status, resp.body, ReadableContentType(resp.headers), now + REPLAY_TTL)
  }

  // A body without a content type of its own is sent as an octet stream.
  function Replay(r: Record): Response {
    Response(r.status,
      map[CONTENT_TYPE := if r.contentType.Some? then r.contentType.value else OCTET_STREAM, REPLAY_MARK := "true"],
        r.body)
  }

  predicate Passes(resp: Response) {
    400 <= resp.status < 600 || IsStreaming(resp.headers)
  }

  predicate Cacheable(resp: Response) {
    !Passes(resp) && |resp.body| <= MAX_BUFFERED_RESPONSE_BYTES
  }

  // What the caller of a live request receives.
  function Delivered(resp: Response): Response {
    if Passes(resp) || Cacheable(resp) then resp else resp.(body := [])
  }

  // What a protected request meets before its handler.
  datatype Arrival = Unprotected | Refused(error: Error) | Replayed(response: Response) | Runs(scope: Scope)

  function Arrive(records: Records, req: Request, findFails: bool, now: Time): Arrival {
    match GateOf(req)
    case Bypass => Unprotected
    case Refuse(e) => Refused(e)
    case Protect(scope) =>
      if findFails then Refused(StoreFailed)
      else if scope in records && records[scope].expiresAt > now then
        if records[scope].digest != Sha256(req.body) then Refused(KeyReused) else Replayed(Replay(records[scope]))
      else Runs(scope)
  }

  // The first writer wins, even against a row that has expired.
  function Settle(records: Records, scope: Scope, digest: Digest, resp: Response, recordFails: bool,
                  now: Time): Records {
    if Cacheable(resp) && !recordFails &&
      scope !in records then records[scope := RecordOf(digest, resp, now)] else records
  }

  datatype Outcome = Responded(response: Response) | Rejected(error: Error)

  // The handler's answer, should it run, the store's failures, and the clock before and after.
  datatype World = World(handler: Response, findFails: bool, recordFails: bool, before: Time, after: Time)

  class RecordStore {
    var records: Records

    constructor ()
      ensures records == map[]
    {
      records := map[];
    }

    method Find(scope: Scope, now: Time) returns (found: Option<Record>)
      ensures found == if scope in records && records[scope].expiresAt > now then Some(records[scope]) else None
    {
      if scope in records && records[scope].expiresAt > now {
        return Some(records[scope]);
      }
      return None;
    }

    method Create(scope: Scope, r: Record)
      modifies this
      ensures records == if scope in old(records) then old(records) else old(records)[scope := r]
    {
      if scope !in records {
        records := records[scope := r];
      }
    }

    /** One request with no other in between: it meets `Arrive`, and if its handler ran in a scope,
        the store settles as `Settle` says and the caller gets `Delivered`. */
    method Layer(req: Request, w: World) returns (outcome: Outcome, ran: bool)
      modifies this
      ensures var arrival := Arrive(old(records), req, w.findFails, w.before);
        && (ran <==> arrival.Unprotected? || arrival.Runs?)
        && outcome == (match arrival
                       case Unprotected => Responded(w.handler)
                       case Refused(e) => Rejected(e)
                       case Replayed(r) => Responded(r)
                       case Runs(_) => Responded(Delivered(w.handler)))
        && records == if arrival.Runs?
          then Settle(old(records), arrival.scope, Sha256(req.body), w.handler, w.recordFails, w.after)
            else old(records)
    {
      var key := ExtractKey(req.headers);
      if key.None? {
        return Responded(w.handler), true;
      }
      if IsStreamingPath(req.path) {
        return Rejected(StreamingUnsupported), false;
      }
      if req.principal.None? {
        return Rejected(Unauthorized), false;
      }
      if req.workspace.None? {
        return Rejected(WorkspaceMissing), false;
      }
      var principal := req.principal.value;
      if principal.apiKey {
        return Responded(w.handler), true;
      }
      if principal.userId.None? {
        return Rejected(Unauthorized), false;
      }
      if |req.body| > MAX_BUFFERED_REQUEST_BYTES {
        return Rejected(BodyTooLarge), false;
      }
      var digest := Sha256(req.body);
      var scope := Scope(req.workspace.value, principal.userId.value, req.verb, req.path, key.value);
      if w.findFails {
        return Rejected(StoreFailed), false;
      }
      var existing := Find(scope, w.before);
      if existing.Some? {
        if existing.value.digest != digest {
          return Rejected(KeyReused), false;
        }
        return Responded(Replay(existing.value)), false;
      }
      var response := w.handler;
      if 400 <= response.status < 600 {
        return Responded(response), true;
      }
      if IsStreaming(response.headers) {
        return Responded(response), true;
      }
      if |response.body| > MAX_BUFFERED_RESPONSE_BYTES {
        return Responded(response.(body := [])), true;
      }
      if !w.recordFails {
        Create(scope, RecordOf(digest, response, w.after));
      }
      return Responded(response), true;
    }

    method DeleteExpired(now: Time)
      modifies this
      ensures records == Swept(old(records), now)
    {
      records := map s | s in records && records[s].expiresAt >= now :: records[s];
    }
  }

  function Swept(records: Records, now: Time): Records {
    map s | s in records && records[s].expiresAt >= now :: records[s]
  }

  // ------------------------------------------------------------------
  // Any number of requests, overlapping as they may
  // ------------------------------------------------------------------

  type Task = nat

  datatype Flight = Flight(scope: Scope, digest: Digest)

  datatype State = State(records: Records, flights: map<Task, Flight>)

  // A request arrives; its handler finishes and the response is settled; expired rows are deleted.
  datatype Event =
    | Begin(task: Task, req: Request, findFails: bool, now: Time)
    | Finish(task: Task, response: Response, recordFails: bool, now: Time)
    | Sweep(now: Time)

  function Apply(s: State, e: Event): State {
    match e
    case Begin(task, req, findFails, now) =>
      var arrival := Arrive(s.records, req, findFails, now);
      if task !in s.flights &&
        arrival.Runs? then s.(flights := s.flights[task := Flight(arrival.scope, Sha256(req.body))]) else s
    case Finish(task, response, recordFails, now) =>
      if task in s.flights then
        State(Settle(s.records, s.flights[task].scope, s.flights[task].digest, response, recordFails, now),
          s.flights - {task})
      else s
    case Sweep(now) => s.(records := Swept(s.records, now))
  }

  // The state after the first n events of a run that begins with nothing recorded.
  function After(run: seq<Event>, n: nat): State
    requires n <= |run|
  {
    if n == 0 then State(map[], map[]) else Apply(After(run, n - 1), run[n - 1])
  }

  ghost predicate Clocked(run: seq<Event>) {
    forall i, j :: 0 <= i <= j < |run| ==> run[i].now <= run[j].now
  }

  // Event i recorded a response in the scope.
  ghost predicate RecordedAt(run: seq<Event>, i: nat, scope: Scope)
    requires i < |run|
  {
    var s := After(run, i);
    run[i].Finish? && run[i].task in s.flights && s.flights[run[i].task].scope == scope &&
    Cacheable(run[i].response) && !run[i].recordFails && scope !in s.records
  }

  lemma {:induction false} RecordOrigin(run: seq<Event>, n: nat, scope: Scope) returns (i: nat)
    requires n <= |run| && scope in After(run, n).records
    ensures i < n && RecordedAt(run, i, scope)
    ensures After(run, n).records[scope] ==
      RecordOf(After(run, i).flights[run[i].task].digest, run[i].response, run[i].now)
  {
    if scope in After(run, n - 1).records {
      i := RecordOrigin(run, n - 1, scope);
    } else {
      i := n - 1;
    }
  }

  lemma {:induction false} RecordStays(run: seq<Event>, m: nat, n: nat, scope: Scope)
    requires m <= n <= |run| && scope in After(run, m).records
    requires forall k :: m <= k < n ==> run[k].now <= After(run, m).records[scope].expiresAt
    ensures scope in After(run, n).records && After(run, n).records[scope] == After(run, m).records[scope]
  {
    if m < n {
      RecordStays(run, m, n - 1, scope);
    }
  }

  // A protected request whose lookup succeeds arrives at event n.
  ghost predicate ArrivesAt(run: seq<Event>, n: nat, scope: Scope)
    requires n < |run|
  {
    run[n].Begin? && GateOf(run[n].req) == Protect(scope) && !run[n].findFails
  }

  function ArrivalAt(run: seq<Event>, n: nat): Arrival
    requires n < |run| && run[n].Begin?
  {
    Arrive(After(run, n).records, run[n].req, run[n].findFails, run[n].now)
  }

  /** From the moment a response is recorded and for a whole replay window, every request in its
      scope gets that status, body and content type if its body is the same, and is refused as
      reusing the key if not; its handler never runs. */
  lemma ReplayIsOriginal(run: seq<Event>, i: nat, n: nat, scope: Scope)
    requires Clocked(run) && i < n < |run| && RecordedAt(run, i, scope) && ArrivesAt(run, n, scope)
    requires run[n].now < run[i].now + REPLAY_TTL
    ensures var digest := After(run, i).flights[run[i].task].digest;
      ArrivalAt(run, n) == if digest == Sha256(run[n].req.body)
        then Replayed(Replay(RecordOf(digest, run[i].response, run[i].now))) else Refused(KeyReused)
  {
    assert After(run, i + 1).records[scope].expiresAt == run[i].now + REPLAY_TTL;
    forall k | i + 1 <= k < n ensures run[k].now <= After(run, i + 1).records[scope].expiresAt {
      assert run[k].now <= run[n].now;
    }
    RecordStays(run, i + 1, n, scope);
  }

  /** The handler runs exactly when no earlier event recorded a response in the scope within the
      replay window. So errors, streams, oversized responses and failed recordings never block a
      later attempt, and neither does any other scope. */
  lemma RunsIffUnrecorded(run: seq<Event>, n: nat, scope: Scope)
    requires Clocked(run) && n < |run| && ArrivesAt(run, n, scope)
    ensures ArrivalAt(run, n).Runs? <==>
      !exists i: nat :: i < n && RecordedAt(run, i, scope) && run[n].now < run[i].now + REPLAY_TTL
  {
    if exists i: nat :: i < n && RecordedAt(run, i, scope) && run[n].now < run[i].now + REPLAY_TTL {
      var i: nat :| i < n && RecordedAt(run, i, scope) && run[n].now < run[i].now + REPLAY_TTL;
      ReplayIsOriginal(run, i, n, scope);
    } else if !ArrivalAt(run, n).Runs? {
      var i := RecordOrigin(run, n, scope);
    }
  }

  /** A replay repeats status and body always, and the content type exactly when the original had
      one that reads as text; otherwise it is marked an octet stream. No other header survives, and every
      replay says that it is one. */
  lemma ReplayFaithful(digest: Digest, resp: Response, now: Time)
    ensures var r := Replay(RecordOf(digest, resp, now));
      && r.status == resp.status && r.body == resp.body && r.headers.Keys == {"content-type", "idempotent-replay"}
      && r.headers["idempotent-replay"] == "true"
      && (if "content-type" in resp.headers && ToStr(resp.headers["content-type"]).Some?
          then r.headers["content-type"] == resp.headers["content-type"]
          else r.headers["content-type"] == "application/octet-stream")
      && ("content-type" in resp.headers && r.headers["content-type"] == resp.headers["content-type"] <==>
          "content-type" in resp.headers && ToStr(resp.headers["content-type"]).Some?)
  {
    assert |CONTENT_TYPE| != |REPLAY_MARK|;
    assert ToStr(OCTET_STREAM).Some?;
  }

  // ------------------------------------------------------------------
  // Whose response is recorded, and who is answered from it
  // ------------------------------------------------------------------

  // The response is not worth keeping: an error, an event stream, or more than 2 MiB.
  ghost predicate Unkept(resp: Response) {
    400 <= resp.status < 600 || |resp.body| > 2_097_152 ||
    ("content-type" in resp.headers && ToStr(resp.headers["content-type"]).Some? &&
     "text/event-stream" <= resp.headers["content-type"])
  }

  /** When a handler finishes, its response is recorded, for 24 hours, iff it is kept, the store does not
      fail and the scope has no record yet; in every other case the records stay as they are. */
  lemma RecordedIffKept(run: seq<Event>, i: nat)
    requires i < |run| && run[i].Finish? && run[i].task in After(run, i).flights
    ensures var scope, before, after := After(run, i).flights[run[i].task].scope, After(run, i).records,
      After(run, i + 1).records;
      if Unkept(run[i].response) || run[i].recordFails || scope in before then after == before
      else
        && scope in after && after == before[scope := after[scope]]
        && after[scope].status == run[i].response.status && after[scope].body == run[i].response.body
        && after[scope].expiresAt == run[i].now + 86_400_000
  {
  }

  lemma {:induction false} FlightBegan(run: seq<Event>, n: nat, t: Task) returns (b: nat)
    requires n <= |run| && t in After(run, n).flights
    ensures b < n && run[b].Begin? && run[b].task == t && GateOf(run[b].req) == Protect(After(run, n).flights[t].scope)
    ensures After(run, n).flights[t].digest == Sha256(run[b].req.body)
    ensures forall m :: b < m < n ==> !(run[m].Finish? && run[m].task == t)
  {
    if t in After(run, n - 1).flights && !(run[n - 1].Finish? && run[n - 1].task == t) {
      b := FlightBegan(run, n - 1, t);
    } else {
      b := n - 1;
    }
  }

  // Two requests that are one attempt repeated, as far as their headers say: same workspace, user, verb,
  // path and key.
  ghost predicate SameAttempt(a: Request, b: Request) {
    && a.workspace.Some? && a.workspace == b.workspace
    && a.principal.Some? && b.principal.Some? && a.principal.value.userId.Some?
    && a.principal.value.userId == b.principal.value.userId
    && a.verb == b.verb && a.path == b.path
    && ExtractKey(a.headers).Some? && ExtractKey(a.headers) == ExtractKey(b.headers)
  }

  lemma ScopesAgree(a: Request, b: Request)
    requires GateOf(a).Protect? && GateOf(b).Protect?
    ensures GateOf(a) == GateOf(b) <==> SameAttempt(a, b)
  {
  }

  /** A request is answered from a recording only if the request whose handler made it was the same
      attempt: made by the same user in the same workspace, on the same verb and path and with the same
      key. It then gets that handler's status and body if its own body is the same as that one's, and is
      refused otherwise. */
  lemma AnsweredOnlyByOwn(run: seq<Event>, n: nat) returns (b: nat, i: nat)
    requires n < |run| && run[n].Begin?
    requires ArrivalAt(run, n).Replayed? || ArrivalAt(run, n) == Refused(KeyReused)
    ensures b < i < n && run[b].Begin? && run[i].Finish? && run[i].task == run[b].task
    ensures SameAttempt(run[b].req, run[n].req) && !Unkept(run[i].response)
    ensures forall m :: b < m < i ==> !(run[m].Finish? && run[m].task == run[b].task)
    ensures ArrivalAt(run, n).Replayed? <==> run[n].req.body == run[b].req.body
    ensures ArrivalAt(run, n).Replayed? ==>
      ArrivalAt(run, n).response.status == run[i].response.status &&
      ArrivalAt(run, n).response.body == run[i].response.body
  {
    var scope := GateOf(run[n].req).scope;
    i := RecordOrigin(run, n, scope);
    b := FlightBegan(run, i, run[i].task);
    ScopesAgree(run[b].req, run[n].req);
    RecordedIffKept(run, i);
  }

  /** And conversely: once a handler's response is recorded, every later request that is the same attempt,
      for 24 hours, is answered from it. */
  lemma OwnIsAnswered(run: seq<Event>, b: nat, i: nat, n: nat)
    requires Clocked(run) && b < i < n < |run| && run[b].Begin? && run[i].Finish? && run[n].Begin?
    requires run[i].task == run[b].task && ArrivalAt(run, b).Runs? && run[b].task !in After(run, b).flights
    requires forall m :: b < m < i ==> !(run[m].Finish? && run[m].task == run[b].task)
    requires After(run, i + 1).records != After(run, i).records && run[n].now < run[i].now + 86_400_000
    requires SameAttempt(run[b].req, run[n].req) && !run[n].findFails
    requires GateOf(run[n].req).Protect?
    ensures if run[n].req.body == run[b].req.body
      then ArrivalAt(run, n).Replayed? && ArrivalAt(run, n).response.status == run[i].response.status &&
        ArrivalAt(run, n).response.body == run[i].response.body
      else ArrivalAt(run, n) == Refused(KeyReused)
  {
    FlightStays(run, b, i);
    ScopesAgree(run[b].req, run[n].req);
    RecordedIffKept(run, i);
    ReplayIsOriginal(run, i, n, GateOf(run[n].req).scope);
  }

  lemma {:induction false} FlightStays(run: seq<Event>, b: nat, i: nat)
    requires b < i <= |run| && run[b].Begin? && ArrivalAt(run, b).Runs? && run[b].task !in After(run, b).flights
    requires forall m :: b < m < i ==> !(run[m].Finish? && run[m].task == run[b].task)
    ensures var t := run[b].task;
      t in After(run, i).flights && GateOf(run[b].req) == Protect(After(run, i).flights[t].scope) &&
      After(run, i).flights[t].digest == Sha256(run[b].req.body)
  {
    if i > b + 1 {
      FlightStays(run, b, i - 1);
    }
  }

  /** Who is protected: a request with a usable key, not for a stream, of an authenticated user in a
      workspace, with at most 1 MiB of body. Requests without a usable key, and those made with an API key
      in a workspace, pass unprotected; everything else is refused, for the first thing that is amiss. */
  lemma WhoIsProtected(req: Request)
    ensures var key, streams := ExtractKey(req.headers).Some?,
      |req.path| >= 7 && req.path[|req.path| - 7..] == "/stream";
      var known := req.principal.Some? && req.workspace.Some?;
      var user := known && !req.principal.value.apiKey && req.principal.value.userId.Some?;
      var unknown := req.principal.None? || (known && !user && !req.principal.value.apiKey);
      && (GateOf(req).Protect? <==> key && !streams && user && |req.body| <= 1_048_576)
      && (GateOf(req) == Bypass <==> !key || (!streams && known && req.principal.value.apiKey))
      && (GateOf(req) == Refuse(Unauthorized) <==> key && !streams && unknown)
      && (GateOf(req) == Refuse(StreamingUnsupported) <==> key && streams)
      && (GateOf(req) == Refuse(WorkspaceMissing) <==> key && !streams && req.principal.Some? && req.workspace.None?)
      && (GateOf(req) == Refuse(BodyTooLarge) <==> GateOf(req.(body := [])).Protect? && |req.body| > 1_048_576)
  {
  }

  /** A request is refused for its size exactly when its body is over the cap and an empty body in its
      place would have been protected: an oversized body does not get past the layer. Nor does a request
      that would be protected while the records cannot be read. */
  lemma OversizedRefusedIff(records: Records, req: Request, findFails: bool, now: Time)
    ensures Arrive(records, req, findFails, now) == Refused(BodyTooLarge) <==>
      |req.body| > 1_048_576 && GateOf(req.(body := [])).Protect?
    ensures Arrive(records, req, findFails, now) == Refused(StoreFailed) <==> findFails && GateOf(req).Protect?
  {
  }

  /** On every run the caller of a handler that ran gets the handler's response unless it is a readable
      success over the cap; then the body is lost for good, for nothing is recorded, and a retry runs
      the handler again unless some other request of the scope has been recorded. */
  lemma BodyLostIffOversized(run: seq<Event>, i: nat, n: nat, scope: Scope)
    requires Clocked(run) && i < n < |run| && run[i].Finish? && ArrivesAt(run, n, scope)
    ensures Delivered(run[i].response) != run[i].response <==>
      !Passes(run[i].response) && |run[i].response.body| > MAX_BUFFERED_RESPONSE_BYTES
    ensures Delivered(run[i].response) != run[i].response ==>
      Delivered(run[i].response) == run[i].response.(body := []) && (ArrivalAt(run, n).Runs? <==> !exists k: nat ::
        k < n && k != i && RecordedAt(run, k, scope) && run[n].now < run[k].now + REPLAY_TTL)
  {
    RunsIffUnrecorded(run, n, scope);
  }

  /** A sweep removes exactly the rows that have expired by its time, and frees their scopes. */
  lemma SweptIffExpired(run: seq<Event>, n: nat, scope: Scope)
    requires n < |run| && run[n].Sweep?
    ensures scope in After(run, n + 1).records <==>
      scope in After(run, n).records && After(run, n).records[scope].expiresAt >= run[n].now
    ensures scope in After(run, n + 1).records ==> After(run, n + 1).records[scope] == After(run, n).records[scope]
    ensures After(run, n + 1).flights == After(run, n).flights
  {
  }

  /** An expired row that has not been swept still wins against new recordings: until the sweep
      every request in its scope runs the handler again. */
  lemma {:induction false} UnsweptRowNeverProtects(run: seq<Event>, m: nat, n: nat, scope: Scope)
    requires Clocked(run) && m <= n < |run| && scope in After(run, m).records &&
      After(run, m).records[scope].expiresAt <= run[m].now
    requires (forall k :: m <= k < n ==> !run[k].Sweep?) && ArrivesAt(run, n, scope)
    ensures ArrivalAt(run, n).Runs?
  {
    UnsweptRowStays(run, m, n, scope);
    assert run[m].now <= run[n].now;
  }

  lemma {:induction false} UnsweptRowStays(run: seq<Event>, m: nat, n: nat, scope: Scope)
    requires m <= n <= |run| && scope in After(run, m).records && forall k :: m <= k < n ==> !run[k].Sweep?
    ensures scope in After(run, n).records && After(run, n).records[scope] == After(run, m).records[scope]
  {
    if m < n {
      UnsweptRowStays(run, m, n - 1, scope);
    }
  }

  // ------------------------------------------------------------------
  // The key
  // ------------------------------------------------------------------

  lemma {:induction false} TrimPads(s: string, left: seq<char>, right: seq<char>)
    requires (forall i :: 0 <= i < |left| ==> Blank(left[i])) && forall i :: 0 <= i < |right| ==> Blank(right[i])
    requires s != [] && !Blank(s[0]) && !Blank(s[|s| - 1])
    ensures TrimEnd(TrimStart(left + s + right)) == s
    decreases |left| + |right|
  {
    var all := left + s + right;
    if left != [] {
      assert all[1..] == left[1..] + s + right;
      TrimPads(s, left[1..], right);
    } else if right != [] {
      assert all == s + right;
      assert all[..|all| - 1] == left + s + right[..|right| - 1];
      TrimPads(s, left, right[..|right| - 1]);
      assert TrimStart(all[..|all| - 1]) == all[..|all| - 1];
    } else {
      assert all == s;
    }
  }

  /** A usable key is what stands between the blanks: two spellings of one key differing only in
      surrounding blanks name one scope. */
  lemma KeyIgnoresPadding(headers: Headers, key: string, left: seq<char>, right: seq<char>)
    requires (forall i :: 0 <= i < |left| ==> Blank(left[i])) && forall i :: 0 <= i < |right| ==> Blank(right[i])
    requires key != [] && !Blank(key[0]) && !Blank(key[|key| - 1]) && ToStr(key).Some?
    ensures ExtractKey(headers["idempotency-key" := left + key + right]) == if |key| <= 255 then Some(key) else None
  {
    TrimPads(key, left, right);
    var v := left + key + right;
    forall i | 0 <= i < |v| ensures v[i] == '\t' || ' ' <= v[i] <= '~' {
      assert v[i] == if i < |left| then left[i] else if i < |left| + |key| then key[i - |left|]
        else right[i - |left| - |key|];
    }
  }

  lemma {:induction false} TrimAllBlank(s: string)
    requires forall i :: 0 <= i < |s| ==> Blank(s[i])
    ensures TrimStart(s) == ""
  {
    if s != [] {
      TrimAllBlank(s[1..]);
    }
  }

  /** There is no key without the header, with a header that does not read as text, or with only blanks in
      it; and any usable key was in the header between blanks. */
  lemma NoKeyWithoutText(headers: Headers, blanks: string)
    requires forall i :: 0 <= i < |blanks| ==> blanks[i] == ' ' || blanks[i] == '\t'
    ensures "idempotency-key" !in headers || ToStr(headers["idempotency-key"]).None? ==> ExtractKey(headers) == None
    ensures ExtractKey(headers["idempotency-key" := blanks]) == None
    ensures ExtractKey(headers).Some? ==>
      ExtractKey(headers).value != "" && |ExtractKey(headers).value| <= 255 &&
      exists l, r :: IsSlice(headers["idempotency-key"], l, r, ExtractKey(headers).value)
  {
    TrimAllBlank(blanks);
    if ExtractKey(headers).Some? {
      var v := headers[HEADER];
      var l := StartSlice(v);
      var r := EndSlice(TrimStart(v));
      assert IsSlice(v, l, l + r, ExtractKey(headers).value);
    }
  }

  ghost predicate IsSlice(s: string, l: int, r: int, part: string) {
    0 <= l <= r <= |s| && part == s[l..r]
  }

  lemma {:induction false} StartSlice(s: string) returns (l: nat)
    ensures l <= |s| && TrimStart(s) == s[l..]
  {
    if s != [] && Blank(s[0]) {
      var k := StartSlice(s[1..]);
      l := k + 1;
    } else {
      l := 0;
    }
  }

  lemma {:induction false} EndSlice(s: string) returns (r: nat)
    ensures r <= |s| && TrimEnd(s) == s[..r]
  {
    if s != [] && Blank(s[|s| - 1]) {
      r := EndSlice(s[..|s| - 1]);
    } else {
      r := |s|;
    }
  }
}
