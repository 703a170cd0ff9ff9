/**
  The platform identity bound in the gateway: which ids are in force, which credentials they were validated
  with, and when a failed validation may be repeated.
 */
module PlatformIdentity {
  import opened Options
  import Text

  const ENSURE_COOLDOWN_MS: int := 10_000

  /** The three ids; the empty string stands for an id that is not set. */
  datatype Ids = Ids(assistantId: string, organizationId: string, userId: string)

  const NO_IDS := Ids("", "", "")

  /** The answer of the validate endpoint: no usable body, or its three fields, `None` where no string. */
  datatype Validated = Refused
    | Fields(assistantId: Option<string>, organizationId: Option<string>, userId: Option<string>)

  /** Where a running ensure body waits: for the credentials, or for the validate call it started. */
  datatype Body = Reading | Validating(fingerprint: string, startedAt: int)

  /** A completed validate call; `None` for a failed one. */
  datatype Attempt = Attempt(fingerprint: string, startedAt: int, endedAt: int, ids: Option<Ids>)

  /**
    The module's variables, the bodies started and not finished, and the validate calls completed so far.
    `inFlight` is whether a promise is kept for the callers to share; `bodies` are the bodies that really run.
   */
  datatype Identity = Identity(
    env: Ids,
    overrides: Ids,
    boundTo: Option<string>,
    lastAttempt: Option<string>,
    nextEnsureAttemptAt: int,
    lastEnsureUnreachable: bool,
    inFlight: bool,
    bodies: map<nat, Body>,
    nextBody: nat,
    attempts: seq<Attempt>)

  datatype Op =
    | Ensure
    | CredentialsRead(body: nat, apiKey: string, baseUrl: string, unreachable: bool, now: int)
    | ReadFails(body: nat)
    | ValidateEnds(body: nat, answer: Validated, now: int)
    | Apply(ids: Ids)

  // ----- The steps -----

  function New(env: Ids): Identity {
    Identity(env, NO_IDS, None, None, 0, false, false, map[], 0, [])
  }

  function Fingerprint(apiKey: string, baseUrl: string): string {
    baseUrl + ['\0'] + apiKey
  }

  function InForce(override: string, env: string): string {
    Text.Trim(if override != "" then override else env)
  }

  function Bound(s: Identity): Ids {
    Ids(InForce(s.overrides.assistantId, s.env.assistantId),
        InForce(s.overrides.organizationId, s.env.organizationId),
        InForce(s.overrides.userId, s.env.userId))
  }

  predicate HasBoundIdentity(s: Identity) {
    Bound(s).assistantId != "" && Bound(s).userId != ""
  }

  function Pick(id: string, current: string): string {
    if id != "" then id else current
  }

  /** Only ids that are there replace the current ones. */
  function ApplyIds(current: Ids, ids: Ids): Ids {
    Ids(Pick(ids.assistantId, current.assistantId),
        Pick(ids.organizationId, current.organizationId),
        Pick(ids.userId, current.userId))
  }

  function AsNonEmpty(value: Option<string>): string {
    if value.Some? then Text.Trim(value.value) else ""
  }

  /** The ids of an answer, unless it has none. */
  function IdsOf(answer: Validated): Option<Ids> {
    if answer.Refused? then None
    else
      var ids := Ids(AsNonEmpty(answer.assistantId), AsNonEmpty(answer.organizationId), AsNonEmpty(answer.userId));
      if ids == NO_IDS then None else Some(ids)
  }

  /** The previous owner's ids are dropped when the credentials are others than those they came with. */
  function DropForeign(s: Identity, fingerprint: string): Identity {
    if s.boundTo.Some? && s.boundTo.value != fingerprint then s.(overrides := NO_IDS, boundTo := None) else s
  }

  /** A body ends, however it does: its `finally` gives up the shared promise. */
  function Finish(s: Identity, body: nat): Identity {
    s.(inFlight := false, bodies := s.bodies - {body})
  }

  function StartBody(s: Identity): Identity {
    s.(inFlight := true, bodies := s.bodies[s.nextBody := Reading], nextBody := s.nextBody + 1)
  }

  predicate IsReading(s: Identity, body: nat) {
    body in s.bodies && s.bodies[body].Reading?
  }

  predicate IsValidating(s: Identity, body: nat) {
    body in s.bodies && s.bodies[body].Validating?
  }

  /** A body from its credentials to its validate call, or to its end. */
  function Proceed(s: Identity, body: nat, fingerprint: string, now: int): Identity {
    if HasBoundIdentity(s) && s.boundTo == Some(fingerprint) then Finish(s, body)
    else if HasBoundIdentity(s) && s.boundTo == None then Finish(s.(boundTo := Some(fingerprint)), body)
    else
      var own := DropForeign(s, fingerprint);
      if now < s.nextEnsureAttemptAt && s.lastAttempt == Some(fingerprint) then Finish(own, body)
      else own.(lastAttempt := Some(fingerprint), bodies := s.bodies[body := Validating(fingerprint, now)])
  }

  function EndValidate(s: Identity, body: nat, answer: Validated, now: int): Identity
    requires IsValidating(s, body)
  {
    var ids, call := IdsOf(answer), s.bodies[body];
    var ended := Finish(s, body).(attempts := s.attempts + [Attempt(call.fingerprint, call.startedAt, now, ids)]);
    if ids.None? then ended.(nextEnsureAttemptAt := now + ENSURE_COOLDOWN_MS)
    else ended.(overrides := ApplyIds(s.overrides, ids.value), boundTo := Some(call.fingerprint), nextEnsureAttemptAt := 0)
  }

  /** Completions of what no body waits for cannot happen; as steps they change nothing. */
  function Step(s: Identity, op: Op): Identity {
    match op
    case Ensure => if s.inFlight then s else StartBody(s)
    case CredentialsRead(body, apiKey, baseUrl, unreachable, now) =>
      if !IsReading(s, body) then s
      else if apiKey == "" || baseUrl == "" then Finish(s.(lastEnsureUnreachable := unreachable), body)
      else Proceed(s.(lastEnsureUnreachable := false), body, Fingerprint(apiKey, baseUrl), now)
    case ReadFails(body) => if IsReading(s, body) then Finish(s, body) else s
    case ValidateEnds(body, answer, now) => if IsValidating(s, body) then EndValidate(s, body, answer, now) else s
    case Apply(ids) => s.(overrides := ApplyIds(s.overrides, ids))
  }

  function After(env: Ids, ops: seq<Op>): Identity
    decreases |ops|
  {
    if ops == [] then New(env) else Step(After(env, ops[..|ops| - 1]), ops[|ops| - 1])
  }

  // ----- One body at a time -----

  /** The running bodies are none, or one while the promise is shared. */
  ghost predicate SingleFlight(s: Identity) {
    && (forall b, c :: b in s.bodies && c in s.bodies ==> b == c)
    && (forall b :: b in s.bodies ==> s.inFlight)
    && (s.inFlight ==> exists b :: b in s.bodies)
  }

  lemma FinishKeepsFlight(s: Identity, body: nat)
    requires SingleFlight(s) && body in s.bodies
    ensures SingleFlight(Finish(s, body)) && Finish(s, body).bodies == map[]
  {
    assert forall b :: b !in s.bodies - {body};
  }

  lemma StartKeepsFlight(s: Identity)
    requires SingleFlight(s) && !s.inFlight
    ensures SingleFlight(StartBody(s))
  {
    assert s.nextBody in StartBody(s).bodies;
  }

  /** The same bodies and the same promise make the same flight. */
  lemma SameFlight(s: Identity, s': Identity)
    requires SingleFlight(s) && s'.inFlight == s.inFlight && s'.bodies.Keys == s.bodies.Keys
    ensures SingleFlight(s')
  {
    if s.inFlight {
      var b :| b in s.bodies;
      assert b in s'.bodies;
    }
  }

  lemma ProceedKeepsFlight(s: Identity, body: nat, fingerprint: string, now: int)
    requires SingleFlight(s) && body in s.bodies
    ensures SingleFlight(Proceed(s, body, fingerprint, now))
  {
    hide HasBoundIdentity, SingleFlight;
    SameFlight(s, s.(boundTo := Some(fingerprint)));
    SameFlight(s, DropForeign(s, fingerprint));
    FinishKeepsFlight(s, body);
    FinishKeepsFlight(s.(boundTo := Some(fingerprint)), body);
    FinishKeepsFlight(DropForeign(s, fingerprint), body);
    var validating := s.bodies[body := Validating(fingerprint, now)];
    assert validating.Keys == s.bodies.Keys;
    SameFlight(s, DropForeign(s, fingerprint).(lastAttempt := Some(fingerprint), bodies := validating));
  }

  lemma EndKeepsFlight(s: Identity, body: nat, answer: Validated, now: int)
    requires SingleFlight(s) && IsValidating(s, body)
    ensures SingleFlight(EndValidate(s, body, answer, now))
  {
    hide IdsOf, ApplyIds, SingleFlight;
    FinishKeepsFlight(s, body);
    SameFlight(Finish(s, body), EndValidate(s, body, answer, now));
  }

  lemma StepKeepsFlight(s: Identity, op: Op)
    requires SingleFlight(s)
    ensures SingleFlight(Step(s, op))
  {
    hide SingleFlight, Finish, StartBody, Proceed, EndValidate, Fingerprint;
    match op
    case Ensure => if !s.inFlight { StartKeepsFlight(s); }
    case CredentialsRead(body, apiKey, baseUrl, unreachable, now) =>
      SameFlight(s, s.(lastEnsureUnreachable := unreachable));
      SameFlight(s, s.(lastEnsureUnreachable := false));
      if IsReading(s, body) {
        FinishKeepsFlight(s.(lastEnsureUnreachable := unreachable), body);
        ProceedKeepsFlight(s.(lastEnsureUnreachable := false), body, Fingerprint(apiKey, baseUrl), now);
      }
    case ReadFails(body) => if IsReading(s, body) { FinishKeepsFlight(s, body); }
    case ValidateEnds(body, answer, now) => if IsValidating(s, body) { EndKeepsFlight(s, body, answer, now); }
    case Apply(ids) => SameFlight(s, s.(overrides := ApplyIds(s.overrides, ids)));
  }

  lemma {:induction false} RunKeepsFlight(env: Ids, ops: seq<Op>)
    ensures SingleFlight(After(env, ops))
    decreases |ops|
  {
    if ops != [] {
      hide Step, SingleFlight;
      RunKeepsFlight(env, ops[..|ops| - 1]);
      StepKeepsFlight(After(env, ops[..|ops| - 1]), ops[|ops| - 1]);
    }
  }

  /** In every run at most one ensure body runs, and exactly while its promise is there to be shared. */
  lemma OneBodyAtATime(env: Ids, ops: seq<Op>)
    ensures |After(env, ops).bodies| == if After(env, ops).inFlight then 1 else 0
  {
    hide After;
    RunKeepsFlight(env, ops);
    var s := After(env, ops);
    if s.inFlight {
      var b :| b in s.bodies;
      assert s.bodies.Keys == {b};
      assert |s.bodies| == |s.bodies.Keys|;
    } else {
      assert s.bodies == map[];
    }
  }

  // ----- Ids belong to the credentials they are bound to -----

  /** A validate call under `fingerprint` returned `id` in the field `field` reads. */
  predicate Returned(attempts: seq<Attempt>, fingerprint: string, field: Ids -> string, id: string) {
    exists i :: 0 <= i < |attempts| && ReturnedBy(attempts[i], fingerprint, field, id)
  }

  predicate ReturnedBy(a: Attempt, fingerprint: string, field: Ids -> string, id: string) {
    a.fingerprint == fingerprint && a.ids.Some? && field(a.ids.value) == id
  }

  /** `id` is in the field of one of the applied ids. */
  predicate AppliedIn(applied: seq<Ids>, field: Ids -> string, id: string) {
    exists i :: 0 <= i < |applied| && field(applied[i]) == id
  }

  /** The override of one field is empty, came from a validate call under the bound fingerprint, or was applied. */
  predicate FieldPaired(s: Identity, applied: seq<Ids>, field: Ids -> string) {
    var id := field(s.overrides);
    || id == ""
    || (s.boundTo.Some? && Returned(s.attempts, s.boundTo.value, field, id))
    || AppliedIn(applied, field, id)
  }

  function AssistantId(ids: Ids): string { ids.assistantId }

  function OrganizationId(ids: Ids): string { ids.organizationId }

  function UserId(ids: Ids): string { ids.userId }

  predicate Paired(s: Identity, applied: seq<Ids>) {
    && FieldPaired(s, applied, AssistantId)
    && FieldPaired(s, applied, OrganizationId)
    && FieldPaired(s, applied, UserId)
  }

  /** What pairing needs between steps: a running validate call is for the bound credentials, or none are bound. */
  ghost predicate PairedAlong(s: Identity, applied: seq<Ids>) {
    && Paired(s, applied)
    && (forall b :: IsValidating(s, b) ==> s.boundTo == None || s.boundTo == Some(s.bodies[b].fingerprint))
  }

  lemma ReturnedStays(attempts: seq<Attempt>, a: Attempt, fingerprint: string, field: Ids -> string, id: string)
    ensures Returned(attempts, fingerprint, field, id) ==> Returned(attempts + [a], fingerprint, field, id)
    ensures ReturnedBy(a, fingerprint, field, id) ==> Returned(attempts + [a], fingerprint, field, id)
  {
    if Returned(attempts, fingerprint, field, id) {
      var i :| 0 <= i < |attempts| && ReturnedBy(attempts[i], fingerprint, field, id);
      assert (attempts + [a])[i] == attempts[i];
    }
    if ReturnedBy(a, fingerprint, field, id) {
      assert (attempts + [a])[|attempts|] == a;
    }
  }

  lemma FieldStaysPaired(s: Identity, applied: seq<Ids>, body: nat, answer: Validated, now: int, field: Ids -> string)
    requires PairedAlong(s, applied) && IsValidating(s, body) && FieldPaired(s, applied, field)
    requires forall a: Ids, b: Ids :: field(ApplyIds(a, b)) == Pick(field(b), field(a))
    ensures FieldPaired(EndValidate(s, body, answer, now), applied, field)
  {
    hide Returned, AppliedIn, IdsOf, ApplyIds, ReturnedBy, AssistantId, OrganizationId, UserId;
    var call := s.bodies[body];
    var a := Attempt(call.fingerprint, call.startedAt, now, IdsOf(answer));
    var id := field(s.overrides);
    ReturnedStays(s.attempts, a, call.fingerprint, field, id);
    if s.boundTo.Some? {
      ReturnedStays(s.attempts, a, s.boundTo.value, field, id);
    }
    if a.ids.Some? {
      assert ReturnedBy(a, call.fingerprint, field, field(a.ids.value)) by { OwnAnswer(a, field); }
      ReturnedStays(s.attempts, a, call.fingerprint, field, field(a.ids.value));
    }
  }

  lemma OwnAnswer(a: Attempt, field: Ids -> string)
    requires a.ids.Some?
    ensures ReturnedBy(a, a.fingerprint, field, field(a.ids.value))
  {
  }

  /** When the only body ends, no validate call is left to be for other credentials. */
  lemma FinishKeepsPairing(s: Identity, applied: seq<Ids>, body: nat)
    requires SingleFlight(s) && body in s.bodies && Paired(s, applied)
    ensures PairedAlong(Finish(s, body), applied)
  {
    hide AssistantId, OrganizationId, UserId, Returned;
    FinishKeepsFlight(s, body);
  }

  lemma DropKeepsPairing(s: Identity, applied: seq<Ids>, fingerprint: string)
    requires Paired(s, applied)
    ensures Paired(DropForeign(s, fingerprint), applied)
  {
    hide Returned;
  }

  lemma ValidateStartsPaired(s: Identity, applied: seq<Ids>, body: nat, fingerprint: string, now: int)
    requires SingleFlight(s) && body in s.bodies && Paired(s, applied)
    requires s.boundTo == None || s.boundTo == Some(fingerprint)
    ensures PairedAlong(s.(lastAttempt := Some(fingerprint), bodies := s.bodies[body := Validating(fingerprint, now)]), applied)
  {
    hide AssistantId, OrganizationId, UserId, Returned;
  }

  lemma AdoptKeepsPairing(s: Identity, applied: seq<Ids>, fingerprint: string)
    requires Paired(s, applied) && s.boundTo == None
    ensures Paired(s.(boundTo := Some(fingerprint)), applied)
  {
    hide Returned, AppliedIn;
  }

  lemma ReadKeepsPairing(s: Identity, applied: seq<Ids>, body: nat, fingerprint: string, now: int)
    requires PairedAlong(s, applied) && SingleFlight(s) && body in s.bodies
    ensures PairedAlong(Proceed(s, body, fingerprint, now), applied)
  {
    hide HasBoundIdentity, Paired, SingleFlight;
    var own := DropForeign(s, fingerprint);
    DropKeepsPairing(s, applied, fingerprint);
    SameFlight(s, own);
    FinishKeepsPairing(s, applied, body);
    FinishKeepsPairing(own, applied, body);
    ValidateStartsPaired(own, applied, body, fingerprint, now);
    if s.boundTo == None {
      AdoptKeepsPairing(s, applied, fingerprint);
      SameFlight(s, s.(boundTo := Some(fingerprint)));
      FinishKeepsPairing(s.(boundTo := Some(fingerprint)), applied, body);
    }
  }

  lemma SamePairing(s: Identity, applied: seq<Ids>, unreachable: bool)
    requires PairedAlong(s, applied)
    ensures PairedAlong(s.(lastEnsureUnreachable := unreachable), applied)
  {
  }

  lemma StartKeepsPairing(s: Identity, applied: seq<Ids>)
    requires PairedAlong(s, applied)
    ensures PairedAlong(StartBody(s), applied)
  {
    hide Returned;
  }

  lemma EndKeepsPairing(s: Identity, applied: seq<Ids>, body: nat, answer: Validated, now: int)
    requires PairedAlong(s, applied) && SingleFlight(s) && IsValidating(s, body)
    ensures PairedAlong(EndValidate(s, body, answer, now), applied)
  {
    hide FieldPaired, SingleFlight, IdsOf, Pick;
    PickFields();
    FieldStaysPaired(s, applied, body, answer, now, AssistantId);
    FieldStaysPaired(s, applied, body, answer, now, OrganizationId);
    FieldStaysPaired(s, applied, body, answer, now, UserId);
    FinishKeepsFlight(s, body);
  }

  lemma PickFields()
    ensures forall a: Ids, b: Ids :: AssistantId(ApplyIds(a, b)) == Pick(AssistantId(b), AssistantId(a))
    ensures forall a: Ids, b: Ids :: OrganizationId(ApplyIds(a, b)) == Pick(OrganizationId(b), OrganizationId(a))
    ensures forall a: Ids, b: Ids :: UserId(ApplyIds(a, b)) == Pick(UserId(b), UserId(a))
  {
  }

  lemma StepKeepsPairing(s: Identity, applied: seq<Ids>, op: Op)
    requires PairedAlong(s, applied) && SingleFlight(s) && !op.Apply?
    ensures PairedAlong(Step(s, op), applied)
  {
    hide PairedAlong, SingleFlight, Proceed, EndValidate, Finish, StartBody, Fingerprint;
    match op
    case Ensure => StartKeepsPairing(s, applied);
    case ReadFails(body) => if IsReading(s, body) { EndReadKeepsPairing(s, applied, body); }
    case CredentialsRead(body, apiKey, baseUrl, unreachable, now) =>
      if IsReading(s, body) {
        SamePairing(s, applied, unreachable);
        SamePairing(s, applied, false);
        SameFlight(s, s.(lastEnsureUnreachable := unreachable));
        SameFlight(s, s.(lastEnsureUnreachable := false));
        EndReadKeepsPairing(s.(lastEnsureUnreachable := unreachable), applied, body);
        ReadKeepsPairing(s.(lastEnsureUnreachable := false), applied, body, Fingerprint(apiKey, baseUrl), now);
      }
    case ValidateEnds(body, answer, now) =>
      if IsValidating(s, body) {
        EndKeepsPairing(s, applied, body, answer, now);
      }
  }

  lemma EndReadKeepsPairing(s: Identity, applied: seq<Ids>, body: nat)
    requires PairedAlong(s, applied) && SingleFlight(s) && body in s.bodies
    ensures PairedAlong(Finish(s, body), applied)
  {
    hide Paired, SingleFlight;
    FinishKeepsPairing(s, applied, body);
  }

  /** `op` drops the ids of other credentials. */
  predicate Drops(s: Identity, op: Op) {
    op.CredentialsRead? && IsReading(s, op.body) && op.apiKey != "" && op.baseUrl != ""
    && s.boundTo.Some? && s.boundTo.value != Fingerprint(op.apiKey, op.baseUrl)
  }

  /** The ids applied from outside since ids were last dropped. */
  function AppliedSince(env: Ids, ops: seq<Op>): seq<Ids>
    decreases |ops|
  {
    if ops == [] then []
    else
      var before, op := ops[..|ops| - 1], ops[|ops| - 1];
      if Drops(After(env, before), op) then []
      else AppliedSince(env, before) + if op.Apply? then [op.ids] else []
  }

  lemma DropStartsAfresh(s: Identity, op: Op, applied: seq<Ids>)
    requires PairedAlong(Step(s, op), applied) && Drops(s, op)
    ensures PairedAlong(Step(s, op), [])
  {
    hide Returned, AppliedIn, Fingerprint, HasBoundIdentity;
    assert Step(s, op).overrides == NO_IDS;
  }

  lemma AppliedMore(applied: seq<Ids>, ids: Ids, field: Ids -> string, id: string)
    ensures AppliedIn(applied, field, id) ==> AppliedIn(applied + [ids], field, id)
    ensures AppliedIn(applied + [ids], field, field(ids))
  {
    if AppliedIn(applied, field, id) {
      var i :| 0 <= i < |applied| && field(applied[i]) == id;
      assert (applied + [ids])[i] == applied[i];
    }
    assert (applied + [ids])[|applied|] == ids;
  }

  lemma ApplyKeepsPairing(s: Identity, applied: seq<Ids>, ids: Ids)
    requires PairedAlong(s, applied)
    ensures PairedAlong(Step(s, Apply(ids)), applied + [ids])
  {
    hide Returned, AppliedIn;
    AppliedMore(applied, ids, AssistantId, s.overrides.assistantId);
    AppliedMore(applied, ids, OrganizationId, s.overrides.organizationId);
    AppliedMore(applied, ids, UserId, s.overrides.userId);
  }

  /**
    In every run, whatever the environment says: each id that was not applied from outside since ids were last
    dropped was returned by a validate call made with the credentials the identity is bound to.
   */
  lemma {:induction false} OverridesAreAccountedFor(env: Ids, ops: seq<Op>)
    ensures PairedAlong(After(env, ops), AppliedSince(env, ops))
    decreases |ops|
  {
    if ops != [] {
      hide Step, PairedAlong, SingleFlight, Drops;
      var before, op := ops[..|ops| - 1], ops[|ops| - 1];
      OverridesAreAccountedFor(env, before);
      RunKeepsFlight(env, before);
      if op.Apply? {
        NoDrop(After(env, before), op);
        ApplyKeepsPairing(After(env, before), AppliedSince(env, before), op.ids);
      } else {
        StepKeepsPairing(After(env, before), AppliedSince(env, before), op);
        assert AppliedSince(env, before) + [] == AppliedSince(env, before);
        if Drops(After(env, before), op) {
          DropStartsAfresh(After(env, before), op, AppliedSince(env, before));
        }
      }
    }
  }

  lemma NoDrop(s: Identity, op: Op)
    requires op.Apply?
    ensures !Drops(s, op)
  {
  }

  lemma {:induction false} NothingApplied(env: Ids, ops: seq<Op>)
    requires forall i :: 0 <= i < |ops| ==> !ops[i].Apply?
    ensures AppliedSince(env, ops) == []
    decreases |ops|
  {
    if ops != [] {
      hide Drops, After;
      NothingApplied(env, ops[..|ops| - 1]);
    }
  }

  /**
    Without external applies, every override was returned by a validate call made with the credentials the
    identity is bound to, and unbound there is none; so without environment ids nothing is in force unbound.
   */
  lemma IdsMatchCredentials(env: Ids, ops: seq<Op>)
    requires forall i :: 0 <= i < |ops| ==> !ops[i].Apply?
    ensures PairedAlong(After(env, ops), [])
    ensures After(env, ops).boundTo == None ==> After(env, ops).overrides == NO_IDS
    ensures env == NO_IDS && After(env, ops).boundTo == None ==> Bound(After(env, ops)) == NO_IDS
  {
    hide After;
    OverridesAreAccountedFor(env, ops);
    NothingApplied(env, ops);
    EnvIsFixed(env, ops);
    assert Text.Trim("") == "";
  }

  lemma {:induction false} EnvIsFixed(env: Ids, ops: seq<Op>)
    ensures After(env, ops).env == env
    decreases |ops|
  {
    if ops != [] {
      hide Step;
      EnvIsFixed(env, ops[..|ops| - 1]);
      StepKeepsEnv(After(env, ops[..|ops| - 1]), ops[|ops| - 1]);
    }
  }

  lemma StepKeepsEnv(s: Identity, op: Op)
    ensures Step(s, op).env == s.env
  {
    hide HasBoundIdentity, IdsOf, ApplyIds, Fingerprint;
  }

  /** Ids applied from outside are bound to whatever credentials are read next, without any validate call. */
  lemma AppliedIdsAreAdopted(apiKey: string, baseUrl: string, now: int)
    requires apiKey != "" && baseUrl != ""
    ensures var s := Step(Step(Step(New(NO_IDS), Apply(Ids("a", "", "u"))), Ensure), CredentialsRead(0, apiKey, baseUrl, false, now));
      s.boundTo == Some(Fingerprint(apiKey, baseUrl)) && s.attempts == [] && Bound(s).userId == "u"
  {
    TrimOne('a');
    TrimOne('u');
  }

  lemma TrimOne(c: char)
    requires !Text.IsSpace(c)
    ensures Text.Trim([c]) == [c]
  {
  }

  /** Whatever happened before, reading other credentials never leaves ids bound to the old ones. */
  lemma NewCredentialsDropOldOwner(s: Identity, body: nat, apiKey: string, baseUrl: string, unreachable: bool, now: int)
    requires IsReading(s, body) && apiKey != "" && baseUrl != ""
    requires s.boundTo.Some? && s.boundTo.value != Fingerprint(apiKey, baseUrl)
    ensures var s' := Step(s, CredentialsRead(body, apiKey, baseUrl, unreachable, now));
      s'.boundTo == None && s'.overrides == NO_IDS
  {
  }

  /** The fingerprint tells credentials apart as long as the base URL contains no NUL. */
  lemma FingerprintIsInjective(apiKey: string, baseUrl: string, apiKey': string, baseUrl': string)
    requires '\0' !in baseUrl && '\0' !in baseUrl'
    requires Fingerprint(apiKey, baseUrl) == Fingerprint(apiKey', baseUrl')
    ensures apiKey == apiKey' && baseUrl == baseUrl'
  {
    var fp := Fingerprint(apiKey, baseUrl);
    Text.SplitFirst(baseUrl, apiKey, '\0');
    Text.SplitFirst(baseUrl', apiKey', '\0');
    assert baseUrl == Text.Split(fp, '\0')[0] == baseUrl';
    assert fp[|baseUrl| + 1..] == apiKey && fp[|baseUrl| + 1..] == apiKey';
  }

  // ----- Single flight and cooldown -----

  /** A validate call may start at `at`, given the one before it. */
  predicate CooledDown(previous: Attempt, fingerprint: string, at: int) {
    previous.ids.None? && previous.fingerprint == fingerprint ==> previous.endedAt + ENSURE_COOLDOWN_MS <= at
  }

  /** All consecutive completed validate calls respect the cooldown. */
  ghost predicate PastCooled(s: Identity) {
    forall i :: 0 < i < |s.attempts| ==>
      CooledDown(s.attempts[i - 1], s.attempts[i].fingerprint, s.attempts[i].startedAt)
  }

  /** A running validate call respects it too; while none runs, a failure is remembered with its credentials. */
  ghost predicate Cooling(s: Identity) {
    && PastCooled(s)
    && (forall b :: IsValidating(s, b) ==>
          && s.lastAttempt == Some(s.bodies[b].fingerprint)
          && (s.attempts != [] ==>
                CooledDown(s.attempts[|s.attempts| - 1], s.bodies[b].fingerprint, s.bodies[b].startedAt)))
    && ((forall b :: !IsValidating(s, b)) && s.attempts != [] ==> Remembered(s, s.attempts[|s.attempts| - 1]))
  }

  predicate Remembered(s: Identity, last: Attempt) {
    last.ids.None? ==>
      s.nextEnsureAttemptAt == last.endedAt + ENSURE_COOLDOWN_MS && s.lastAttempt == Some(last.fingerprint)
  }

  /** The variables that the cooldown is about are the same, and so are the validate calls. */
  lemma SameCooling(s: Identity, s': Identity)
    requires Cooling(s)
    requires s'.attempts == s.attempts && s'.lastAttempt == s.lastAttempt && s'.nextEnsureAttemptAt == s.nextEnsureAttemptAt
    requires forall b :: IsValidating(s', b) <==> IsValidating(s, b)
    requires forall b :: IsValidating(s, b) ==> b in s'.bodies && s'.bodies[b] == s.bodies[b]
    ensures Cooling(s')
  {
    hide CooledDown;
  }

  lemma ValidateStartsCooled(s: Identity, body: nat, fingerprint: string, now: int)
    requires Cooling(s) && SingleFlight(s) && IsReading(s, body)
    requires now < s.nextEnsureAttemptAt ==> s.lastAttempt != Some(fingerprint)
    ensures Cooling(s.(lastAttempt := Some(fingerprint), bodies := s.bodies[body := Validating(fingerprint, now)]))
  {
    assert forall b :: !IsValidating(s, b);
    var s' := s.(lastAttempt := Some(fingerprint), bodies := s.bodies[body := Validating(fingerprint, now)]);
    assert IsValidating(s', body);
    assert forall b :: IsValidating(s', b) ==> b == body;
  }

  lemma ProceedKeepsCooling(s: Identity, body: nat, fingerprint: string, now: int)
    requires Cooling(s) && SingleFlight(s) && IsReading(s, body)
    ensures Cooling(Proceed(s, body, fingerprint, now))
  {
    hide HasBoundIdentity, Cooling, SingleFlight;
    var own := DropForeign(s, fingerprint);
    SameCooling(s, own);
    SameCooling(s, s.(boundTo := Some(fingerprint)));
    SameFlight(s, own);
    ReadEndKeepsCooling(s, body);
    ReadEndKeepsCooling(s.(boundTo := Some(fingerprint)), body);
    ReadEndKeepsCooling(own, body);
    if now < s.nextEnsureAttemptAt ==> s.lastAttempt != Some(fingerprint) {
      ValidateStartsCooled(own, body, fingerprint, now);
    }
  }

  lemma ReadEndKeepsCooling(s: Identity, body: nat)
    requires Cooling(s) && IsReading(s, body)
    ensures Cooling(Finish(s, body))
  {
    hide Cooling;
    SameCooling(s, Finish(s, body));
  }

  lemma EndKeepsCooling(s: Identity, body: nat, answer: Validated, now: int)
    requires Cooling(s) && SingleFlight(s) && IsValidating(s, body)
    ensures Cooling(EndValidate(s, body, answer, now))
  {
    hide IdsOf, ApplyIds, SingleFlight;
    FinishKeepsFlight(s, body);
  }

  lemma StepKeepsCooling(s: Identity, op: Op)
    requires Cooling(s) && SingleFlight(s)
    ensures Cooling(Step(s, op))
  {
    hide Cooling, SingleFlight, Proceed, EndValidate, Finish, Fingerprint;
    match op
    case Ensure =>
      if !s.inFlight {
        NewIsReading(s);
        SameCooling(s, StartBody(s));
      }
    case ReadFails(body) => if IsReading(s, body) { ReadEndKeepsCooling(s, body); }
    case CredentialsRead(body, apiKey, baseUrl, unreachable, now) =>
      if IsReading(s, body) {
        SameCooling(s, s.(lastEnsureUnreachable := unreachable));
        SameCooling(s, s.(lastEnsureUnreachable := false));
        SameFlight(s, s.(lastEnsureUnreachable := false));
        ReadEndKeepsCooling(s.(lastEnsureUnreachable := unreachable), body);
        ProceedKeepsCooling(s.(lastEnsureUnreachable := false), body, Fingerprint(apiKey, baseUrl), now);
      }
    case ValidateEnds(body, answer, now) => if IsValidating(s, body) { EndKeepsCooling(s, body, answer, now); }
    case Apply(ids) => SameCooling(s, s.(overrides := ApplyIds(s.overrides, ids)));
  }

  /** A new body is none of those that validate. */
  lemma NewIsReading(s: Identity)
    requires SingleFlight(s) && !s.inFlight
    ensures forall b :: !IsValidating(s, b) && !IsValidating(StartBody(s), b)
  {
  }

  /** The cooldown is kept for the credentials of the last call only: others may be tried at once. */
  lemma OtherCredentialsSkipCooldown(s: Identity, body: nat, fingerprint: string, now: int)
    requires !HasBoundIdentity(s) && s.lastAttempt != Some(fingerprint)
    ensures Proceed(s, body, fingerprint, now).bodies == s.bodies[body := Validating(fingerprint, now)]
  {
  }

  /** In every run, two consecutive validate calls with the same credentials, the first failed, are a cooldown apart. */
  lemma {:induction false} FailuresCoolDown(env: Ids, ops: seq<Op>)
    ensures Cooling(After(env, ops))
    decreases |ops|
  {
    if ops != [] {
      hide Step, Cooling, SingleFlight;
      FailuresCoolDown(env, ops[..|ops| - 1]);
      RunKeepsFlight(env, ops[..|ops| - 1]);
      StepKeepsCooling(After(env, ops[..|ops| - 1]), ops[|ops| - 1]);
    } else {
      assert Cooling(New(env));
    }
  }

  /** The clock reading of an operation that takes one. */
  predicate NotBefore(op: Op, time: int) {
    match op
    case CredentialsRead(_, _, _, _, now) => time <= now
    case ValidateEnds(_, _, now) => time <= now
    case _ => true
  }

  predicate NotAfter(op: Op, time: int) {
    match op
    case CredentialsRead(_, _, _, _, now) => now <= time
    case ValidateEnds(_, _, now) => now <= time
    case _ => true
  }

  /** The completed validate calls follow one another, and every running one comes after them. */
  ghost predicate Sequential(s: Identity) {
    && (forall i :: 0 <= i < |s.attempts| ==> s.attempts[i].startedAt <= s.attempts[i].endedAt)
    && (forall i :: 0 < i < |s.attempts| ==> s.attempts[i - 1].endedAt <= s.attempts[i].startedAt)
    && (forall b :: IsValidating(s, b) && s.attempts != [] ==>
          s.attempts[|s.attempts| - 1].endedAt <= s.bodies[b].startedAt)
  }

  /** Nothing in the state is later than `time`. */
  ghost predicate Past(s: Identity, time: int) {
    && (forall i :: 0 <= i < |s.attempts| ==> s.attempts[i].endedAt <= time)
    && (forall b :: IsValidating(s, b) ==> s.bodies[b].startedAt <= time)
  }

  lemma PastLater(s: Identity, before: int, now: int)
    requires Past(s, before) && before <= now
    ensures Past(s, now)
  {
  }

  /** A step that completes no validate call and starts none at another time than `now`. */
  lemma CallsKeepSequence(s: Identity, s': Identity, now: int)
    requires Sequential(s) && Past(s, now) && s'.attempts == s.attempts
    requires forall b :: IsValidating(s', b) ==>
      s'.bodies[b].startedAt == now || (IsValidating(s, b) && s'.bodies[b] == s.bodies[b])
    ensures Sequential(s') && Past(s', now)
  {
  }

  lemma ProceedKeepsSequence(s: Identity, body: nat, fingerprint: string, now: int)
    requires Sequential(s) && Past(s, now)
    ensures Sequential(Proceed(s, body, fingerprint, now)) && Past(Proceed(s, body, fingerprint, now), now)
  {
    hide HasBoundIdentity, Sequential, Past;
    CallsKeepSequence(s, Proceed(s, body, fingerprint, now), now);
  }

  /** The one running validate call ends; if there were others, they would overlap it. */
  lemma EndKeepsSequence(s: Identity, body: nat, answer: Validated, now: int)
    requires Sequential(s) && Past(s, now) && SingleFlight(s) && IsValidating(s, body)
    ensures Sequential(EndValidate(s, body, answer, now)) && Past(EndValidate(s, body, answer, now), now)
  {
    hide IdsOf, ApplyIds, SingleFlight;
    FinishKeepsFlight(s, body);
  }

  lemma ReadKeepsSequence(s: Identity, op: Op)
    requires op.CredentialsRead? && Sequential(s) && Past(s, op.now)
    ensures Sequential(Step(s, op)) && Past(Step(s, op), op.now)
  {
    hide Sequential, Past, Proceed, Fingerprint;
    if IsReading(s, op.body) {
      CallsKeepSequence(s, Finish(s.(lastEnsureUnreachable := op.unreachable), op.body), op.now);
      CallsKeepSequence(s, s.(lastEnsureUnreachable := false), op.now);
      ProceedKeepsSequence(s.(lastEnsureUnreachable := false), op.body, Fingerprint(op.apiKey, op.baseUrl), op.now);
    }
  }

  lemma ValidateKeepsSequence(s: Identity, op: Op)
    requires op.ValidateEnds? && Sequential(s) && Past(s, op.now) && SingleFlight(s)
    ensures Sequential(Step(s, op)) && Past(Step(s, op), op.now)
  {
    hide Sequential, Past, EndValidate, SingleFlight;
    if IsValidating(s, op.body) {
      EndKeepsSequence(s, op.body, op.answer, op.now);
    }
  }

  lemma OtherStepsKeepSequence(s: Identity, op: Op, now: int)
    requires !op.CredentialsRead? && !op.ValidateEnds? && Sequential(s) && Past(s, now)
    ensures Sequential(Step(s, op)) && Past(Step(s, op), now)
  {
    hide ApplyIds, Sequential, Past;
    CallsKeepSequence(s, Step(s, op), now);
  }

  lemma StepKeepsSequence(s: Identity, op: Op, before: int, now: int)
    requires Sequential(s) && Past(s, before) && before <= now && NotBefore(op, before) && NotAfter(op, now)
    requires SingleFlight(s)
    ensures Sequential(Step(s, op)) && Past(Step(s, op), now)
  {
    hide Sequential, Past, Step, SingleFlight;
    if op.CredentialsRead? || op.ValidateEnds? {
      PastLater(s, before, op.now);
      if op.CredentialsRead? {
        ReadKeepsSequence(s, op);
      } else {
        ValidateKeepsSequence(s, op);
      }
      PastLater(Step(s, op), op.now, now);
    } else {
      PastLater(s, before, now);
      OtherStepsKeepSequence(s, op, now);
    }
  }

  /** Runs whose clock readings lie between `0` and the given times, each step no earlier than the one before. */
  predicate Timed(ops: seq<Op>, times: seq<int>) {
    && |times| == |ops| + 1
    && (forall i :: 0 <= i < |ops| ==> times[i] <= times[i + 1] && NotBefore(ops[i], times[i]) && NotAfter(ops[i], times[i + 1]))
  }

  /** At most one validate call is under way at any time: each starts after the one before it ended. */
  lemma {:induction false} OneValidateAtATime(env: Ids, ops: seq<Op>, times: seq<int>)
    requires Timed(ops, times)
    ensures Sequential(After(env, ops)) && Past(After(env, ops), times[|ops|])
    decreases |ops|
  {
    if ops != [] {
      hide Step, Sequential, Past, SingleFlight;
      var n := |ops| - 1;
      OneValidateAtATime(env, ops[..n], times[..n + 1]);
      RunKeepsFlight(env, ops[..n]);
      StepKeepsSequence(After(env, ops[..n]), ops[n], times[n], times[n + 1]);
    } else {
      assert Sequential(New(env)) && Past(New(env), times[0]);
    }
  }

  // ----- Failures that another attempt makes forgotten -----

  /** A validate call started at `at` with the credentials of the failed call `a`, inside its cooldown. */
  predicate TooEarly(a: Attempt, fingerprint: string, at: int) {
    a.ids.None? && a.fingerprint == fingerprint && at < a.endedAt + ENSURE_COOLDOWN_MS
  }

  lemma {:induction false} LaterStarts(s: Identity, i: nat, j: nat)
    requires Sequential(s) && i <= j < |s.attempts|
    ensures s.attempts[i].startedAt <= s.attempts[j].startedAt
    decreases j
  {
    if i < j {
      LaterStarts(s, i, j - 1);
    }
  }

  /** Among completed calls: one that is too early after an earlier failure has other credentials tried in between. */
  lemma EarlyNeedsOthers(s: Identity, i: nat, j: nat)
    requires Sequential(s) && PastCooled(s) && i < j < |s.attempts|
    requires TooEarly(s.attempts[i], s.attempts[j].fingerprint, s.attempts[j].startedAt)
    ensures exists k :: i < k < j && s.attempts[k].fingerprint != s.attempts[i].fingerprint
  {
    var next := s.attempts[i + 1];
    LaterStarts(s, i + 1, j);
    assert CooledDown(s.attempts[i], next.fingerprint, next.startedAt);
    assert i + 1 < j && next.fingerprint != s.attempts[i].fingerprint;
  }

  lemma RunningEarlyNeedsOthers(s: Identity, i: nat, body: nat)
    requires Sequential(s) && Cooling(s) && i < |s.attempts| && IsValidating(s, body)
    requires TooEarly(s.attempts[i], s.bodies[body].fingerprint, s.bodies[body].startedAt)
    ensures exists k :: i < k < |s.attempts| && s.attempts[k].fingerprint != s.attempts[i].fingerprint
  {
    var last := |s.attempts| - 1;
    if i < last {
      var next := s.attempts[i + 1];
      LaterStarts(s, i + 1, last);
      assert CooledDown(s.attempts[i], next.fingerprint, next.startedAt);
      assert i < i + 1 < |s.attempts| && next.fingerprint != s.attempts[i].fingerprint;
    }
  }

  /**
    In every run of a clock that does not run backwards: after a failed validate call, another one with the same
    credentials, completed or running, starts inside the cooldown only if other credentials were tried in between.
   */
  lemma RetriesCoolDown(env: Ids, ops: seq<Op>, times: seq<int>, i: nat)
    requires Timed(ops, times) && i < |After(env, ops).attempts|
    ensures var s := After(env, ops); forall j: nat ::
      i < j < |s.attempts| && TooEarly(s.attempts[i], s.attempts[j].fingerprint, s.attempts[j].startedAt) ==>
        exists k :: i < k < j && s.attempts[k].fingerprint != s.attempts[i].fingerprint
    ensures var s := After(env, ops); forall body: nat ::
      IsValidating(s, body) && TooEarly(s.attempts[i], s.bodies[body].fingerprint, s.bodies[body].startedAt) ==>
        exists k :: i < k < |s.attempts| && s.attempts[k].fingerprint != s.attempts[i].fingerprint
  {
    hide After, Sequential, Cooling, TooEarly, PastCooled;
    OneValidateAtATime(env, ops, times);
    FailuresCoolDown(env, ops);
    var s := After(env, ops);
    assert PastCooled(s) by { CoolingPast(s); }
    forall j: nat | i < j < |s.attempts| && TooEarly(s.attempts[i], s.attempts[j].fingerprint, s.attempts[j].startedAt)
      ensures exists k :: i < k < j && s.attempts[k].fingerprint != s.attempts[i].fingerprint
    {
      EarlyNeedsOthers(s, i, j);
    }
    forall body: nat | IsValidating(s, body) && TooEarly(s.attempts[i], s.bodies[body].fingerprint, s.bodies[body].startedAt)
      ensures exists k :: i < k < |s.attempts| && s.attempts[k].fingerprint != s.attempts[i].fingerprint
    {
      RunningEarlyNeedsOthers(s, i, body);
    }
  }

  lemma CoolingPast(s: Identity)
    requires Cooling(s)
    ensures PastCooled(s)
  {
  }

  /** A body that tries credentials at time 0 and is refused. */
  function Refusal(s: Identity, apiKey: string, baseUrl: string): Identity {
    Step(Step(Step(s, Ensure), CredentialsRead(s.nextBody, apiKey, baseUrl, false, 0)), ValidateEnds(s.nextBody, Refused, 0))
  }

  lemma RefusalTried(s: Identity, apiKey: string, baseUrl: string)
    requires !s.inFlight && s.bodies == map[] && s.env == NO_IDS && s.overrides == NO_IDS && s.boundTo == None
    requires apiKey != "" && baseUrl != "" && s.lastAttempt != Some(Fingerprint(apiKey, baseUrl))
    ensures var s', fingerprint := Refusal(s, apiKey, baseUrl), Fingerprint(apiKey, baseUrl);
      && !s'.inFlight && s'.bodies == map[] && s'.env == NO_IDS && s'.overrides == NO_IDS && s'.boundTo == None
      && s'.lastAttempt == Some(fingerprint) && s'.nextEnsureAttemptAt == ENSURE_COOLDOWN_MS
      && s'.attempts == s.attempts + [Attempt(fingerprint, 0, 0, None)]
  {
    hide Fingerprint;
    assert Text.Trim("") == "";
  }

  /**
    Such a run: credentials are refused, others are refused, and the first are validated again at once, although
    nothing about them has changed.
   */
  lemma CooldownIsForgotten(apiKey: string, other: string, baseUrl: string)
    requires apiKey != "" && other != "" && baseUrl != "" && Fingerprint(apiKey, baseUrl) != Fingerprint(other, baseUrl)
    ensures var s := Refusal(Refusal(New(NO_IDS), apiKey, baseUrl), other, baseUrl);
      var s' := Step(Step(s, Ensure), CredentialsRead(s.nextBody, apiKey, baseUrl, false, 0));
      && |s.attempts| == 2 && IsValidating(s', s.nextBody) && s'.bodies[s.nextBody].startedAt == 0
      && TooEarly(s.attempts[0], s'.bodies[s.nextBody].fingerprint, 0)
  {
    hide Fingerprint, Refusal;
    RefusalTried(New(NO_IDS), apiKey, baseUrl);
    RefusalTried(Refusal(New(NO_IDS), apiKey, baseUrl), other, baseUrl);
    assert Text.Trim("") == "";
  }

  // ----- The module's variables -----

  class PlatformIdentity {
    const env: Ids
    var overrides: Ids
    var identityBoundToFingerprint: Option<string>
    var lastAttemptFingerprint: Option<string>
    var nextEnsureAttemptAt: int
    var lastEnsureUnreachable: bool
    var ensureInFlight: bool
    var bodies: map<nat, Body>
    var nextBody: nat
    ghost var attempts: seq<Attempt>

    ghost function Model(): Identity
      reads this
    {
      Identity(env, overrides, identityBoundToFingerprint, lastAttemptFingerprint, nextEnsureAttemptAt,
               lastEnsureUnreachable, ensureInFlight, bodies, nextBody, attempts)
    }

    constructor (env: Ids)
      ensures Model() == New(env)
    {
      this.env := env;
      overrides := NO_IDS;
      identityBoundToFingerprint, lastAttemptFingerprint := None, None;
      nextEnsureAttemptAt, lastEnsureUnreachable := 0, false;
      ensureInFlight := false;
      bodies, nextBody := map[], 0;
      attempts := [];
    }

    /** Start a body unless there is a promise to share. */
    method EnsureIds()
      modifies this
      ensures Model() == Step(old(Model()), Ensure)
    {
      if !ensureInFlight {
        bodies := bodies[nextBody := Reading];
        nextBody := nextBody + 1;
        ensureInFlight := true;
      }
    }

    /** The `finally` of a body. */
    method FinishBody(body: nat)
      modifies this`ensureInFlight, this`bodies
      ensures Model() == Finish(old(Model()), body)
    {
      bodies := bodies - {body};
      ensureInFlight := false;
    }

    method IsBound() returns (bound: bool)
      ensures bound == HasBoundIdentity(Model())
    {
      var assistantId := if overrides.assistantId != "" then overrides.assistantId else env.assistantId;
      var userId := if overrides.userId != "" then overrides.userId else env.userId;
      return Text.Trim(assistantId) != "" && Text.Trim(userId) != "";
    }

    /** A body from its first await to its second: start a validate call, or end. */
    method OnCredentialsRead(body: nat, apiKey: string, baseUrl: string, unreachable: bool, now: int)
      requires body in bodies && bodies[body] == Reading
      modifies this
      ensures Model() == Step(old(Model()), CredentialsRead(body, apiKey, baseUrl, unreachable, now))
    {
      hide HasBoundIdentity, Fingerprint;
      if apiKey == "" || baseUrl == "" {
        lastEnsureUnreachable := unreachable;
        FinishBody(body);
        return;
      }
      lastEnsureUnreachable := false;
      var fingerprint := Fingerprint(apiKey, baseUrl);
      var bound := IsBound();
      if bound && identityBoundToFingerprint == Some(fingerprint) {
        FinishBody(body);
        return;
      }
      if bound && identityBoundToFingerprint == None {
        identityBoundToFingerprint := Some(fingerprint);
        FinishBody(body);
        return;
      }
      if identityBoundToFingerprint != None && identityBoundToFingerprint != Some(fingerprint) {
        overrides := NO_IDS;
        identityBoundToFingerprint := None;
      }
      if now < nextEnsureAttemptAt && lastAttemptFingerprint == Some(fingerprint) {
        FinishBody(body);
        return;
      }
      lastAttemptFingerprint := Some(fingerprint);
      bodies := bodies[body := Validating(fingerprint, now)];
    }

    /** Reading the credentials was rejected: the body ends and the next ensure starts another. */
    method OnReadFails(body: nat)
      requires body in bodies && bodies[body] == Reading
      modifies this`ensureInFlight, this`bodies
      ensures Model() == Step(old(Model()), ReadFails(body))
    {
      FinishBody(body);
    }

    /** A body after its validate call. */
    method OnValidateEnds(body: nat, answer: Validated, now: int)
      requires body in bodies && bodies[body].Validating?
      modifies this
      ensures Model() == Step(old(Model()), ValidateEnds(body, answer, now))
    {
      hide ApplyIds, IdsOf;
      var ids, fingerprint := IdsOf(answer), bodies[body].fingerprint;
      attempts := attempts + [Attempt(fingerprint, bodies[body].startedAt, now, ids)];
      if ids == None {
        nextEnsureAttemptAt := now + ENSURE_COOLDOWN_MS;
        FinishBody(body);
        return;
      }
      ApplyPlatformIdentityIds(ids.value);
      identityBoundToFingerprint := Some(fingerprint);
      nextEnsureAttemptAt := 0;
      FinishBody(body);
    }

    method ApplyPlatformIdentityIds(ids: Ids)
      modifies this`overrides
      ensures Model() == Step(old(Model()), Apply(ids))
    {
      if ids.assistantId != "" {
        overrides := overrides.(assistantId := ids.assistantId);
      }
      if ids.organizationId != "" {
        overrides := overrides.(organizationId := ids.organizationId);
      }
      if ids.userId != "" {
        overrides := overrides.(userId := ids.userId);
      }
    }
  }
}
