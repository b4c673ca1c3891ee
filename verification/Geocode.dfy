/**
 The geocoding cache: any number of requests look up, fetch and store under one lock, in every
 interleaving. Hashing, JSON decoding, the "not found" probe and the upstream service are unknown
 functions or outcomes.
 */
module Geocode {
  import opened Wrappers
  import opened Text

  // ---------- Canonical bodies ----------

  /** White space trimmed, and every run of it collapsed to one space. */
  function CanonicalizeRequestBody(raw: string): string {
    Join(Fields(raw), " ")
  }

  lemma CanonicalTwice(raw: string)
    ensures CanonicalizeRequestBody(CanonicalizeRequestBody(raw)) == CanonicalizeRequestBody(raw)
  {
    FieldsOfJoin(Fields(raw));
  }

  /** Bodies have the same canonical form exactly when they have the same words in the same order. */
  lemma SameCanonicalMeansSameWords(x: string, y: string)
    ensures CanonicalizeRequestBody(x) == CanonicalizeRequestBody(y) <==> Fields(x) == Fields(y)
  {
    FieldsOfJoin(Fields(x));
    FieldsOfJoin(Fields(y));
  }

  /** How much white space stands between two parts of a body does not matter. */
  lemma GapLengthIrrelevant(a: string, gap: string, gap': string, b: string)
    requires gap != "" && AllSpace(gap) && gap' != "" && AllSpace(gap')
    ensures CanonicalizeRequestBody(a + gap + b) == CanonicalizeRequestBody(a + gap' + b)
  {
    FieldsSplit(a, gap, b);
    FieldsSplit(a, gap', b);
  }

  /** Nor does white space around it. */
  lemma MarginsIrrelevant(before: string, a: string, after: string)
    requires AllSpace(before) && AllSpace(after)
    ensures CanonicalizeRequestBody(before + a + after) == CanonicalizeRequestBody(a)
  {
    hide Fields;
    NoFields(before);
    NoFields(after);
    assert Fields(before + a) == Fields(a) by {
      if before == "" {
        assert before + a == a;
      } else {
        FieldsSplit("", before, a);
        assert "" + before + a == before + a && [] + Fields(a) == Fields(a);
      }
    }
    if after == "" {
      assert before + a + after == before + a;
    } else {
      FieldsSplit(before + a, after, "");
      assert before + a + after + "" == before + a + after && Fields(a) + [] == Fields(a);
    }
  }

  lemma NoFields(s: string)
    requires AllSpace(s)
    ensures Fields(s) == [] && Fields("") == []
  {
    FieldsOfSpace(s);
  }

  // ---------- Requests as a step system ----------

  type Payload = string

  /** What the service is given: a hash, a JSON decoder, the probe for empty results, and whether it
      answers from the mock. */
  datatype Config = Config(hash: string -> string, decodes: string -> bool, isNotFound: Payload -> bool,
                           mock: Option<Payload>)

  datatype CacheStatus = Hit | Miss

  datatype Response = BadRequest | ServerError | Reply(status: nat, payload: Payload, cacheStatus: CacheStatus)

  datatype Pc =
    | Arrived
    | Waiting
    | Holding
    | Missed
    | Fetched(payload: Payload)
    | Leaving(response: Response)
    | Done(response: Response)

  datatype Request = Request(raw: string, pc: Pc)

  /** One upstream call: the body it was made for, and the payload when there was one. */
  datatype Call = Call(body: string, payload: Option<Payload>)

  datatype State = State(requests: seq<Request>, holder: Option<nat>, cache: map<string, Payload>, calls: seq<Call>)

  /** One action of request r. A lookup may fail; a fetch yields a payload, also with status 404, or
      fails; a store may fail, and may then have stored the row or not. */
  datatype Step =
    | Decode(r: nat)
    | Lock(r: nat)
    | Lookup(r: nat, fails: bool)
    | Fetch(r: nat, outcome: Option<Payload>)
    | Store(r: nat, reaches: bool, fails: bool)
    | Unlock(r: nat)

  function Body(q: Request): string {
    CanonicalizeRequestBody(q.raw)
  }

  function Key(cfg: Config, q: Request): string {
    cfg.hash(Body(q))
  }

  function StatusOf(cfg: Config, payload: Payload): nat {
    if cfg.isNotFound(payload) then 404 else 200
  }

  function ReplyWith(cfg: Config, payload: Payload, cacheStatus: CacheStatus): Response {
    Reply(StatusOf(cfg, payload), payload, cacheStatus)
  }

  predicate Enabled(s: State, step: Step) {
    step.r < |s.requests| &&
    var pc := s.requests[step.r].pc;
    match step
    case Decode(_) => pc.Arrived?
    case Lock(_) => pc.Waiting? && s.holder == None
    case Lookup(_, _) => pc.Holding?
    case Fetch(_, _) => pc.Missed?
    case Store(_, reaches, fails) => pc.Fetched? && (!fails ==> reaches)
    case Unlock(_) => pc.Leaving?
  }

  function MoveTo(s: State, r: nat, pc: Pc): State
    requires r < |s.requests|
  {
    s.(requests := s.requests[r := s.requests[r].(pc := pc)])
  }

  function Apply(cfg: Config, s: State, step: Step): State
    requires Enabled(s, step)
  {
    var q := s.requests[step.r];
    match step
    case Decode(r) => MoveTo(s, r, if cfg.decodes(Body(q)) then Waiting else Done(BadRequest))
    case Lock(r) => MoveTo(s, r, Holding).(holder := Some(r))
    case Lookup(r, fails) =>
      MoveTo(s, r, if fails then Leaving(ServerError)
                   else if Key(cfg, q) in s.cache then Leaving(ReplyWith(cfg, s.cache[Key(cfg, q)], Hit))
                   else Missed)
    case Fetch(r, outcome) =>
      if cfg.mock.Some? then MoveTo(s, r, Fetched(cfg.mock.value))
      else
        MoveTo(s, r, if outcome.Some? then Fetched(outcome.value) else Leaving(ServerError))
        .(calls := s.calls + [Call(Body(q), outcome)])
    case Store(r, reaches, fails) =>
      MoveTo(s, r, Leaving(if fails then ServerError else ReplyWith(cfg, q.pc.payload, Miss)))
      .(cache := if reaches then s.cache[Key(cfg, q) := q.pc.payload] else s.cache)
    case Unlock(r) => MoveTo(s, r, Done(q.pc.response)).(holder := None)
  }

  ghost predicate Reaches(cfg: Config, s: State, steps: seq<Step>, s': State)
    decreases |steps|
  {
    if steps == [] then s' == s
    else Enabled(s, steps[0]) && Reaches(cfg, Apply(cfg, s, steps[0]), steps[1..], s')
  }

  /** Nothing has happened yet; the cache may hold rows from before. */
  function Start(bodies: seq<string>, cache: map<string, Payload>): State {
    State(seq(|bodies|, i requires 0 <= i < |bodies| => Request(bodies[i], Arrived)), None, cache, [])
  }

  // ---------- What every step keeps ----------

  predicate InCriticalSection(pc: Pc) {
    pc.Holding? || pc.Missed? || pc.Fetched? || pc.Leaving?
  }

  ghost predicate MutualExclusion(s: State) {
    forall r: nat :: r < |s.requests| ==> (InCriticalSection(s.requests[r].pc) <==> s.holder == Some(r))
  }

  predicate IsReply(pc: Pc) {
    (pc.Leaving? || pc.Done?) && pc.response.Reply?
  }

  /** A request that goes to fetch or store has no row; a reply carries the row's payload and the
      status that goes with it. */
  predicate RequestFits(cfg: Config, s: State, q: Request) {
    && (q.pc == Done(BadRequest) ==> !cfg.decodes(Body(q)))
    && (!q.pc.Arrived? && q.pc != Done(BadRequest) ==> cfg.decodes(Body(q)) && q.pc != Leaving(BadRequest))
    && (q.pc.Missed? || q.pc.Fetched? ==> Key(cfg, q) !in s.cache)
    && (IsReply(q.pc) ==>
          && Key(cfg, q) in s.cache
          && q.pc.response.payload == s.cache[Key(cfg, q)]
          && q.pc.response.status == StatusOf(cfg, q.pc.response.payload))
  }

  ghost predicate Inv(cfg: Config, s: State) {
    MutualExclusion(s) && forall r: nat :: r < |s.requests| ==> RequestFits(cfg, s, s.requests[r])
  }

  lemma StartIsInv(cfg: Config, bodies: seq<string>, cache: map<string, Payload>)
    ensures Inv(cfg, Start(bodies, cache))
  {
  }

  lemma MutualExclusionStep(cfg: Config, s: State, step: Step)
    requires MutualExclusion(s) && Enabled(s, step)
    ensures MutualExclusion(Apply(cfg, s, step))
  {
    hide Body, Key;
    var s' := Apply(cfg, s, step);
    forall r: nat | r < |s'.requests|
      ensures InCriticalSection(s'.requests[r].pc) <==> s'.holder == Some(r)
    {
      assert InCriticalSection(s.requests[r].pc) <==> s.holder == Some(r);
      assert InCriticalSection(s.requests[step.r].pc) <==> s.holder == Some(step.r);
    }
  }

  /** Rows are added, never changed. */
  ghost predicate CacheGrows(s: State, s': State) {
    forall k :: k in s.cache ==> k in s'.cache && s'.cache[k] == s.cache[k]
  }

  lemma CacheStep(cfg: Config, s: State, step: Step)
    requires Inv(cfg, s) && Enabled(s, step)
    ensures CacheGrows(s, Apply(cfg, s, step))
  {
    hide Body, Key;
    assert RequestFits(cfg, s, s.requests[step.r]);
  }

  lemma InvStep(cfg: Config, s: State, step: Step)
    requires Inv(cfg, s) && Enabled(s, step)
    ensures Inv(cfg, Apply(cfg, s, step))
  {
    hide CanonicalizeRequestBody, StatusOf;
    var s' := Apply(cfg, s, step);
    MutualExclusionStep(cfg, s, step);
    CacheStep(cfg, s, step);
    forall r: nat | r < |s'.requests|
      ensures RequestFits(cfg, s', s'.requests[r])
    {
      assert RequestFits(cfg, s, s.requests[r]);
      assert RequestFits(cfg, s, s.requests[step.r]);
      assert InCriticalSection(s.requests[r].pc) <==> s.holder == Some(r);
      assert InCriticalSection(s.requests[step.r].pc) <==> s.holder == Some(step.r);
    }
  }

  lemma {:induction false} InvRun(cfg: Config, s: State, steps: seq<Step>, s': State)
    requires Inv(cfg, s) && Reaches(cfg, s, steps, s')
    ensures Inv(cfg, s') && CacheGrows(s, s')
    ensures SameRequests(s, s')
    decreases |steps|
  {
    hide Inv, Enabled, Apply;
    if steps != [] {
      InvStep(cfg, s, steps[0]);
      CacheStep(cfg, s, steps[0]);
      SameRequestsStep(cfg, s, steps[0]);
      InvRun(cfg, Apply(cfg, s, steps[0]), steps[1..], s');
    }
  }

  /** Requests keep their bodies, and finished requests keep their responses. */
  ghost predicate SameRequests(s: State, s': State) {
    && |s'.requests| == |s.requests|
    && (forall r :: 0 <= r < |s.requests| ==> s'.requests[r].raw == s.requests[r].raw)
    && (forall r :: 0 <= r < |s.requests| && s.requests[r].pc.Done? ==> s'.requests[r] == s.requests[r])
  }

  lemma SameRequestsStep(cfg: Config, s: State, step: Step)
    requires Enabled(s, step)
    ensures SameRequests(s, Apply(cfg, s, step))
  {
    hide Body, Key;
  }

  // ---------- Single flight and replay ----------

  function CallsFor(calls: seq<Call>, body: string): nat {
    if calls == [] then 0
    else (if calls[|calls| - 1].body == body then 1 else 0) + CallsFor(calls[..|calls| - 1], body)
  }

  lemma CallStep(cfg: Config, s: State, step: Step, body: string)
    requires Inv(cfg, s) && Enabled(s, step) && cfg.hash(body) in s.cache
    ensures CallsFor(Apply(cfg, s, step).calls, body) == CallsFor(s.calls, body)
  {
    hide CanonicalizeRequestBody;
    assert RequestFits(cfg, s, s.requests[step.r]);
    if step.Fetch? && cfg.mock == None {
      var call := Call(Body(s.requests[step.r]), step.outcome);
      assert (s.calls + [call])[..|s.calls|] == s.calls;
    }
  }

  /** Once a row for a canonical body is stored, no request with that body calls upstream again. */
  lemma {:induction false} StoredBodyIsNeverFetched(cfg: Config, s: State, steps: seq<Step>, s': State, body: string)
    requires Inv(cfg, s) && Reaches(cfg, s, steps, s') && cfg.hash(body) in s.cache
    ensures CallsFor(s'.calls, body) == CallsFor(s.calls, body)
    decreases |steps|
  {
    hide Inv, Enabled, Apply;
    if steps != [] {
      InvStep(cfg, s, steps[0]);
      CacheStep(cfg, s, steps[0]);
      CallStep(cfg, s, steps[0], body);
      StoredBodyIsNeverFetched(cfg, Apply(cfg, s, steps[0]), steps[1..], s', body);
    }
  }

  /** In every run, all replies to one canonical body have the same payload and the same status, and
      they are those of the stored row, which never changes. */
  lemma RepliesAreReplayed(cfg: Config, bodies: seq<string>, cache: map<string, Payload>, before: seq<Step>, s: State,
                           after: seq<Step>, s': State, q: nat, r: nat)
    requires Reaches(cfg, Start(bodies, cache), before, s) && Reaches(cfg, s, after, s')
    requires q < |s.requests| && IsReply(s.requests[q].pc)
    requires r < |s'.requests| && IsReply(s'.requests[r].pc)
    requires Body(s'.requests[r]) == Body(s.requests[q])
    ensures s'.requests[r].pc.response.payload == s.requests[q].pc.response.payload
    ensures s'.requests[r].pc.response.status == s.requests[q].pc.response.status
    ensures var k := cfg.hash(Body(s.requests[q]));
            k in s.cache && k in s'.cache && s'.cache[k] == s.cache[k] == s.requests[q].pc.response.payload
  {
    hide Reaches, CanonicalizeRequestBody;
    StartIsInv(cfg, bodies, cache);
    InvRun(cfg, Start(bodies, cache), before, s);
    InvRun(cfg, s, after, s');
    assert RequestFits(cfg, s, s.requests[q]);
    assert RequestFits(cfg, s', s'.requests[r]);
  }

  /** After the first reply to a body, upstream is not called for it again. */
  lemma NoCallAfterReply(cfg: Config, bodies: seq<string>, cache: map<string, Payload>, before: seq<Step>, s: State,
                         after: seq<Step>, s': State, q: nat)
    requires Reaches(cfg, Start(bodies, cache), before, s) && Reaches(cfg, s, after, s')
    requires q < |s.requests| && IsReply(s.requests[q].pc)
    ensures CallsFor(s'.calls, Body(s.requests[q])) == CallsFor(s.calls, Body(s.requests[q]))
  {
    hide Reaches, CanonicalizeRequestBody;
    StartIsInv(cfg, bodies, cache);
    InvRun(cfg, Start(bodies, cache), before, s);
    assert RequestFits(cfg, s, s.requests[q]);
    StoredBodyIsNeverFetched(cfg, s, after, s', Body(s.requests[q]));
  }

  /** In every run, a request is answered as a bad request exactly when its body does not decode. */
  lemma BadRequestsExactly(cfg: Config, bodies: seq<string>, cache: map<string, Payload>, steps: seq<Step>, s: State,
                           r: nat)
    requires Reaches(cfg, Start(bodies, cache), steps, s)
    requires r < |s.requests| && s.requests[r].pc.Done?
    ensures s.requests[r].pc.response.BadRequest? <==> !cfg.decodes(Body(s.requests[r]))
  {
    hide Reaches, CanonicalizeRequestBody;
    StartIsInv(cfg, bodies, cache);
    InvRun(cfg, Start(bodies, cache), steps, s);
    assert RequestFits(cfg, s, s.requests[r]);
  }

  /** In every run, a reply has status 404 exactly when its payload is an empty result, and else 200. */
  lemma RepliesHaveTheirStatus(cfg: Config, bodies: seq<string>, cache: map<string, Payload>, steps: seq<Step>,
                               s: State,
                               r: nat)
    requires Reaches(cfg, Start(bodies, cache), steps, s)
    requires r < |s.requests| && IsReply(s.requests[r].pc)
    ensures var reply := s.requests[r].pc.response;
            reply.status == if cfg.isNotFound(reply.payload) then 404 else 200
  {
    hide Reaches, CanonicalizeRequestBody;
    StartIsInv(cfg, bodies, cache);
    InvRun(cfg, Start(bodies, cache), steps, s);
    assert RequestFits(cfg, s, s.requests[r]);
  }

  // ---------- How many calls a body costs ----------

  ghost function CountWhere(qs: seq<Request>, p: Request -> bool): nat {
    if qs == [] then 0 else (if p(qs[0]) then 1 else 0) + CountWhere(qs[1..], p)
  }

  lemma {:induction false} CountUpdate(qs: seq<Request>, i: nat, q: Request, p: Request -> bool)
    requires i < |qs|
    ensures CountWhere(qs[i := q], p) + (if p(qs[i]) then 1 else 0) == CountWhere(qs, p) + if p(q) then 1 else 0
  {
    if i == 0 {
      assert qs[0 := q][1..] == qs[1..];
    } else {
      assert qs[i := q][1..] == qs[1..][i - 1 := q];
      CountUpdate(qs[1..], i - 1, q, p);
    }
  }

  lemma {:induction false} CountNone(qs: seq<Request>, p: Request -> bool)
    requires forall i :: 0 <= i < |qs| ==> !p(qs[i])
    ensures CountWhere(qs, p) == 0
  {
    if qs != [] {
      assert forall i :: 0 <= i < |qs| - 1 ==> qs[1..][i] == qs[i + 1];
      CountNone(qs[1..], p);
    }
  }

  lemma {:induction false} CountOne(qs: seq<Request>, p: Request -> bool)
    requires forall i, j :: 0 <= i < j < |qs| ==> !(p(qs[i]) && p(qs[j]))
    ensures CountWhere(qs, p) <= 1
  {
    if qs != [] {
      var rest := qs[1..];
      assert forall i :: 0 <= i < |rest| ==> rest[i] == qs[i + 1];
      if p(qs[0]) {
        CountNone(rest, p);
      } else {
        CountOne(rest, p);
      }
    }
  }

  predicate HasEnded(pc: Pc) {
    pc.Leaving? || pc.Done?
  }

  /** The request has come to a server error. */
  function Failing(body: string): Request -> bool {
    (q: Request) => Body(q) == body && HasEnded(q.pc) && q.pc.response.ServerError?
  }

  /** The request holds a fetched payload, or has replied with one that it fetched. */
  function Fetching(body: string): Request -> bool {
    (q: Request) => Body(q) == body
                    && (q.pc.Fetched? || (HasEnded(q.pc) && q.pc.response.Reply? && q.pc.response.cacheStatus == Miss))
  }

  ghost predicate OneFetches(s: State, body: string) {
    forall q, r :: 0 <= q < r < |s.requests| ==> !(Fetching(body)(s.requests[q]) && Fetching(body)(s.requests[r]))
  }

  ghost predicate CallsAccounted(s: State, body: string) {
    CallsFor(s.calls, body) <= CountWhere(s.requests, Failing(body)) + CountWhere(s.requests, Fetching(body))
  }

  /** A request that goes to fetch is the only one for its body. */
  lemma NobodyElseFetches(cfg: Config, s: State, r: nat, q: nat)
    requires Inv(cfg, s) && r < |s.requests| && q < |s.requests| && q != r && s.requests[r].pc.Missed?
    ensures !Fetching(Body(s.requests[r]))(s.requests[q])
  {
    hide CanonicalizeRequestBody;
    assert RequestFits(cfg, s, s.requests[r]) && RequestFits(cfg, s, s.requests[q]);
    assert InCriticalSection(s.requests[r].pc) && InCriticalSection(s.requests[q].pc) ==> s.holder == Some(q);
    assert s.holder == Some(r);
  }

  lemma OneFetchesStep(cfg: Config, s: State, step: Step, body: string)
    requires Inv(cfg, s) && OneFetches(s, body) && Enabled(s, step)
    ensures OneFetches(Apply(cfg, s, step), body)
  {
    hide CanonicalizeRequestBody, Inv, StatusOf;
    var s', me := Apply(cfg, s, step), step.r;
    forall q | 0 <= q < |s.requests| && q != me
      ensures s'.requests[q] == s.requests[q]
      ensures Fetching(body)(s'.requests[me]) && !Fetching(body)(s.requests[me]) ==> !Fetching(body)(s.requests[q])
    {
      if step.Fetch? && Body(s.requests[me]) == body {
        NobodyElseFetches(cfg, s, me, q);
      }
    }
  }

  lemma AccountedStep(cfg: Config, s: State, step: Step, body: string)
    requires CallsAccounted(s, body) && Enabled(s, step)
    ensures CallsAccounted(Apply(cfg, s, step), body)
  {
    hide CanonicalizeRequestBody, StatusOf, CountWhere;
    var s', me := Apply(cfg, s, step), step.r;
    CountUpdate(s.requests, me, s'.requests[me], Failing(body));
    CountUpdate(s.requests, me, s'.requests[me], Fetching(body));
    assert s'.requests == s.requests[me := s'.requests[me]];
    if step.Fetch? && cfg.mock == None {
      assert (s.calls + [Call(Body(s.requests[me]), step.outcome)])[..|s.calls|] == s.calls;
    }
  }

  lemma {:induction false} AccountedRun(cfg: Config, s: State, steps: seq<Step>, s': State, body: string)
    requires Inv(cfg, s) && OneFetches(s, body) && CallsAccounted(s, body) && Reaches(cfg, s, steps, s')
    ensures OneFetches(s', body) && CallsAccounted(s', body)
    decreases |steps|
  {
    hide Inv, Enabled, Apply, OneFetches, CallsAccounted;
    if steps != [] {
      InvStep(cfg, s, steps[0]);
      OneFetchesStep(cfg, s, steps[0], body);
      AccountedStep(cfg, s, steps[0], body);
      AccountedRun(cfg, Apply(cfg, s, steps[0]), steps[1..], s', body);
    }
  }

  /** Over a whole run, from the start and in any interleaving: a body costs at most one upstream call,
      and one more for every request with that body that came to a server error. */
  lemma SingleFlight(cfg: Config, bodies: seq<string>, cache: map<string, Payload>, steps: seq<Step>, s: State,
                     body: string)
    requires Reaches(cfg, Start(bodies, cache), steps, s)
    ensures CallsFor(s.calls, body) <= 1 + CountWhere(s.requests, Failing(body))
  {
    hide Reaches, CanonicalizeRequestBody, CountWhere;
    var s0 := Start(bodies, cache);
    StartIsInv(cfg, bodies, cache);
    AccountedRun(cfg, s0, steps, s, body);
    CountOne(s.requests, Fetching(body));
  }

  /** A service that answers from the mock never calls upstream. */
  lemma {:induction false} MockNeverCalls(cfg: Config, s: State, steps: seq<Step>, s': State)
    requires cfg.mock.Some? && Reaches(cfg, s, steps, s')
    ensures s'.calls == s.calls
    decreases |steps|
  {
    if steps != [] {
      MockNeverCalls(cfg, Apply(cfg, s, steps[0]), steps[1..], s');
    }
  }

  // ---------- Whose payload it is ----------

  ghost predicate Injective(hash: string -> string) {
    forall x, y :: hash(x) == hash(y) ==> x == y
  }

  /** The payload was fetched for this very body. */
  ghost predicate FetchedFor(s: State, body: string, payload: Payload) {
    Call(body, Some(payload)) in s.calls
  }

  /** Every new row, and every payload on its way to become one, was fetched for its own body. */
  ghost predicate OwnRows(cfg: Config, s: State, old': map<string, Payload>) {
    && (forall r: nat :: r < |s.requests| && s.requests[r].pc.Fetched? ==>
          FetchedFor(s, Body(s.requests[r]), s.requests[r].pc.payload))
    && (forall k :: k in s.cache && k !in old' ==> exists body :: cfg.hash(body) == k && FetchedFor(s, body, s.cache[k]))
  }

  lemma OwnRowsStep(cfg: Config, s: State, step: Step, old': map<string, Payload>)
    requires OwnRows(cfg, s, old') && Enabled(s, step) && cfg.mock == None
    ensures OwnRows(cfg, Apply(cfg, s, step), old')
  {
    hide CanonicalizeRequestBody;
    var s' := Apply(cfg, s, step);
    assert forall body, p :: FetchedFor(s, body, p) ==> FetchedFor(s', body, p);
    forall k | k in s'.cache && k !in old'
      ensures exists body :: cfg.hash(body) == k && FetchedFor(s', body, s'.cache[k])
    {
      if step.Store? && step.reaches && k == Key(cfg, s.requests[step.r]) {
        assert FetchedFor(s', Body(s.requests[step.r]), s'.cache[k]);
      } else {
        var body :| cfg.hash(body) == k && FetchedFor(s, body, s.cache[k]);
      }
    }
  }

  lemma {:induction false} OwnRowsRun(cfg: Config, s: State, steps: seq<Step>, s': State, old': map<string, Payload>)
    requires OwnRows(cfg, s, old') && Reaches(cfg, s, steps, s') && cfg.mock == None
    ensures OwnRows(cfg, s', old')
    decreases |steps|
  {
    hide OwnRows, Enabled, Apply;
    if steps != [] {
      OwnRowsStep(cfg, s, steps[0], old');
      OwnRowsRun(cfg, Apply(cfg, s, steps[0]), steps[1..], s', old');
    }
  }

  /** With an injective hash and a cache that starts empty, a reply carries a payload that upstream
      returned for the request's own canonical body, never another one's. */
  lemma RepliesAreTheBodysOwn(cfg: Config, bodies: seq<string>, steps: seq<Step>, s: State, r: nat)
    requires Reaches(cfg, Start(bodies, map[]), steps, s) && cfg.mock == None && Injective(cfg.hash)
    requires r < |s.requests| && IsReply(s.requests[r].pc)
    ensures FetchedFor(s, Body(s.requests[r]), s.requests[r].pc.response.payload)
  {
    hide Reaches, CanonicalizeRequestBody;
    StartIsInv(cfg, bodies, map[]);
    InvRun(cfg, Start(bodies, map[]), steps, s);
    OwnRowsRun(cfg, Start(bodies, map[]), steps, s, map[]);
    assert RequestFits(cfg, s, s.requests[r]);
  }

  // ---------- One request without interruption ----------

  lemma {:induction false} Extend(cfg: Config, s0: State, steps: seq<Step>, s: State, step: Step)
    requires Reaches(cfg, s0, steps, s) && Enabled(s, step)
    ensures Reaches(cfg, s0, steps + [step], Apply(cfg, s, step))
    decreases |steps|
  {
    hide Apply, Enabled;
    if steps == [] {
      assert [] + [step] == [step] && [step][1..] == [];
    } else {
      assert (steps + [step])[1..] == steps[1..] + [step];
      Extend(cfg, Apply(cfg, s0, steps[0]), steps[1..], s, step);
    }
  }

  lemma NoSteps(cfg: Config, s: State)
    ensures Reaches(cfg, s, [], s)
  {
  }

  lemma Then(cfg: Config, s0: State, steps: seq<Step>, s: State, step: Step) returns (steps': seq<Step>, s': State)
    requires Reaches(cfg, s0, steps, s) && Enabled(s, step)
    ensures Reaches(cfg, s0, steps', s') && s' == Apply(cfg, s, step)
  {
    Extend(cfg, s0, steps, s, step);
    steps', s' := steps + [step], Apply(cfg, s, step);
  }

  /** What the world does to one request: does the lookup fail, what does upstream answer, does the
      store reach the table, and does it report an error? */
  datatype World = World(lookupFails: bool, upstream: Option<Payload>, storeReaches: bool, storeFails: bool)

  /** What a cache miss gets hold of: the mocked payload or upstream's answer. */
  function Obtained(cfg: Config, w: World): Option<Payload> {
    if cfg.mock.Some? then cfg.mock else w.upstream
  }

  function AfterMiss(cfg: Config, w: World): Response {
    if Obtained(cfg, w) == None || w.storeFails then ServerError else ReplyWith(cfg, Obtained(cfg, w).value, Miss)
  }

  /** The response to one request, from the cache as it finds it. */
  function Answer(cfg: Config, cache: map<string, Payload>, raw: string, w: World): Response {
    var body := CanonicalizeRequestBody(raw);
    if !cfg.decodes(body) then BadRequest
    else if w.lookupFails then ServerError
    else if cfg.hash(body) in cache then ReplyWith(cfg, cache[cfg.hash(body)], Hit)
    else AfterMiss(cfg, w)
  }

  /** Does the request get past decoding and lookup without finding a row? */
  predicate Misses(cfg: Config, cache: map<string, Payload>, raw: string, w: World) {
    var body := CanonicalizeRequestBody(raw);
    cfg.decodes(body) && !w.lookupFails && cfg.hash(body) !in cache
  }

  function Stored(cfg: Config, cache: map<string, Payload>, raw: string, w: World): map<string, Payload> {
    if Obtained(cfg, w).Some? && w.storeReaches
    then cache[cfg.hash(CanonicalizeRequestBody(raw)) := Obtained(cfg, w).value]
    else cache
  }

  function Called(cfg: Config, raw: string, w: World): seq<Call> {
    if cfg.mock.Some? then [] else [Call(CanonicalizeRequestBody(raw), w.upstream)]
  }

  /** The service, with its cache table and the calls it has made. */
  class GeocodeService {
    const cfg: Config
    var cache: map<string, Payload>
    ghost var calls: seq<Call>

    constructor (cfg: Config)
      ensures this.cfg == cfg && cache == map[] && calls == []
    {
      this.cfg, cache, calls := cfg, map[], [];
    }

    /** The state in which one request is all there is. */
    ghost function View(q: Request): State
      reads this
    {
      State([q], None, cache, calls)
    }

    method CallUpstream(body: string, w: World) returns (payload: Option<Payload>)
      modifies this`calls
      ensures payload == w.upstream && calls == old(calls) + [Call(body, payload)]
    {
      payload := w.upstream;
      calls := calls + [Call(body, payload)];
    }

    /** One request from decoding to unlocking, with nothing in between. */
    method ValidateAddressV0(raw: string, w: World) returns (r: Response, ghost steps: seq<Step>)
      requires !w.storeFails ==> w.storeReaches
      modifies this
      ensures Reaches(cfg, old(View(Request(raw, Arrived))), steps, View(Request(raw, Done(r))))
      ensures r == Answer(cfg, old(cache), raw, w)
      ensures r.Reply? ==> r.status == if cfg.isNotFound(r.payload) then 404 else 200
      ensures r.BadRequest? <==> !cfg.decodes(CanonicalizeRequestBody(raw))
      ensures var k := cfg.hash(CanonicalizeRequestBody(raw));
              r.Reply? ==>
                && k in cache && r.payload == cache[k] && (r.cacheStatus == Hit <==> k in old(cache))
                && (k !in old(cache) ==> cfg.mock == Some(r.payload) || (cfg.mock == None && w.upstream == Some(r.payload)))
      ensures forall k :: k in old(cache) ==> k in cache && cache[k] == old(cache)[k]
      ensures cache == if Misses(cfg, old(cache), raw, w) then Stored(cfg, old(cache), raw, w) else old(cache)
      ensures calls == old(calls) + if Misses(cfg, old(cache), raw, w) then Called(cfg, raw, w) else []
    {
      hide Reaches, CanonicalizeRequestBody;
      var body := CanonicalizeRequestBody(raw);
      var key := cfg.hash(body);
      ghost var s0 := View(Request(raw, Arrived));
      ghost var s;
      NoSteps(cfg, s0);
      steps, s := Then(cfg, s0, [], s0, Decode(0));
      if !cfg.decodes(body) {
        r := BadRequest;
        assert s == View(Request(raw, Done(r)));
        return;
      }
      steps, s := Then(cfg, s0, steps, s, Lock(0));
      assert s == View(Request(raw, Holding)).(holder := Some(0));
      steps, s := Then(cfg, s0, steps, s, Lookup(0, w.lookupFails));
      if w.lookupFails {
        r := ServerError;
      } else if key in cache {
        r := ReplyWith(cfg, cache[key], Hit);
      } else {
        assert s == View(Request(raw, Missed)).(holder := Some(0));
        r, steps, s := FetchAndStore(raw, w, s0, steps, s);
      }
      assert s == View(Request(raw, Leaving(r))).(holder := Some(0));
      steps, s := Then(cfg, s0, steps, s, Unlock(0));
      assert s == View(Request(raw, Done(r)));
    }

    /** The part after a cache miss. */
    method FetchAndStore(raw: string, w: World, ghost s0: State, ghost before: seq<Step>, ghost s1: State)
      returns (r: Response, ghost steps: seq<Step>, ghost s: State)
      requires !w.storeFails ==> w.storeReaches
      requires Reaches(cfg, s0, before, s1) && s1 == View(Request(raw, Missed)).(holder := Some(0))
      requires cfg.hash(CanonicalizeRequestBody(raw)) !in cache
      modifies this
      ensures Reaches(cfg, s0, steps, s) && s == View(Request(raw, Leaving(r))).(holder := Some(0))
      ensures r == AfterMiss(cfg, w) && cache == Stored(cfg, old(cache), raw, w)
      ensures calls == old(calls) + Called(cfg, raw, w)
    {
      hide Reaches, CanonicalizeRequestBody;
      var body := CanonicalizeRequestBody(raw);
      var payload;
      steps, s := Then(cfg, s0, before, s1, Fetch(0, w.upstream));
      if cfg.mock.Some? {
        payload := cfg.mock.value;
      } else {
        var answer := CallUpstream(body, w);
        if answer == None {
          r := ServerError;
          assert s == View(Request(raw, Leaving(r))).(holder := Some(0));
          return;
        }
        payload := answer.value;
      }
      assert s == View(Request(raw, Fetched(payload))).(holder := Some(0));
      steps, s := Then(cfg, s0, steps, s, Store(0, w.storeReaches, w.storeFails));
      if w.storeReaches {
        cache := cache[cfg.hash(body) := payload];
      }
      r := if w.storeFails then ServerError else ReplyWith(cfg, payload, Miss);
      assert s == View(Request(raw, Leaving(r))).(holder := Some(0));
    }
  }
}
