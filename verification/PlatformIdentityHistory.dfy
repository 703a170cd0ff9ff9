/** Which ids are in force, which credentials they are bound to and when validate is called, told by the history. */
module PlatformIdentityHistory {
  import opened Options
  import opened PlatformIdentity
  import Text

  // ----- What one operation gives, binds and starts -----

  datatype Field = Assistant | Organization | User

  function Of(ids: Ids, f: Field): string {
    match f
    case Assistant => ids.assistantId
    case Organization => ids.organizationId
    case User => ids.userId
  }

  /** What the validate endpoint returned in a field: nothing, or its text. */
  function ReturnedIn(answer: Validated, f: Field): Option<string> {
    if answer.Refused? then None
    else
      match f
      case Assistant => answer.assistantId
      case Organization => answer.organizationId
      case User => answer.userId
  }

  /** The id that `op` gives for a field, trimmed if a validate call returned it; empty if it gives none. */
  function Gives(s: Identity, op: Op, f: Field): string {
    if op.Apply? then Of(op.ids, f)
    else if op.ValidateEnds? && IsValidating(s, op.body) && ReturnedIn(op.answer, f).Some?
    then Text.Trim(ReturnedIn(op.answer, f).value)
    else ""
  }

  /** Both ids that make an identity are in force. */
  predicate Complete(s: Identity) {
    Bound(s).assistantId != "" && Bound(s).userId != ""
  }

  /** A body reads credentials that are there. */
  predicate Reads(s: Identity, op: Op) {
    op.CredentialsRead? && IsReading(s, op.body) && op.apiKey != "" && op.baseUrl != ""
  }

  /** The credentials that `op` binds the ids to: those of a call that returned an id, or those that complete but unbound ids meet. */
  function Binds(s: Identity, op: Op): Option<string> {
    if Reads(s, op) && Complete(s) && s.boundTo == None then Some(Fingerprint(op.apiKey, op.baseUrl))
    else if op.ValidateEnds? && IsValidating(s, op.body) && exists f :: Gives(s, op, f) != ""
    then Some(s.bodies[op.body].fingerprint)
    else None
  }

  lemma TrimFields(answer: Validated)
    requires answer.Fields?
    ensures AsNonEmpty(answer.assistantId) == if answer.assistantId.Some? then Text.Trim(answer.assistantId.value) else ""
    ensures AsNonEmpty(answer.organizationId) == if answer.organizationId.Some? then Text.Trim(answer.organizationId.value) else ""
    ensures AsNonEmpty(answer.userId) == if answer.userId.Some? then Text.Trim(answer.userId.value) else ""
  {
  }

  lemma EndGives(s: Identity, body: nat, answer: Validated, now: int, f: Field)
    requires IsValidating(s, body)
    ensures var op, d := ValidateEnds(body, answer, now), EndValidate(s, body, answer, now);
      && Of(d.overrides, f) == (if Gives(s, op, f) != "" then Gives(s, op, f) else Of(s.overrides, f))
      && ((exists g :: Gives(s, op, g) != "") <==> IdsOf(answer).Some?)
  {
    hide Text.Trim;
    var op := ValidateEnds(body, answer, now);
    if answer.Fields? {
      hide AsNonEmpty;
      TrimFields(answer);
      assert Gives(s, op, Assistant) == AsNonEmpty(answer.assistantId);
      assert Gives(s, op, Organization) == AsNonEmpty(answer.organizationId);
      assert Gives(s, op, User) == AsNonEmpty(answer.userId);
    }
  }

  /** The ids after one operation: dropped, given, or as before. */
  lemma StepGives(s: Identity, op: Op, f: Field)
    ensures Of(Step(s, op).overrides, f)
      == if Drops(s, op) then "" else if Gives(s, op, f) != "" then Gives(s, op, f) else Of(s.overrides, f)
  {
    hide Text.Trim, IdsOf, Fingerprint, EndValidate, InForce;
    if op.ValidateEnds? && IsValidating(s, op.body) {
      EndGives(s, op.body, op.answer, op.now, f);
    }
  }

  /** The binding after one operation: dropped, made, or as before. */
  lemma StepBinds(s: Identity, op: Op)
    ensures Step(s, op).boundTo == if Drops(s, op) then None else if Binds(s, op).Some? then Binds(s, op) else s.boundTo
  {
    hide Text.Trim, IdsOf, Fingerprint, ApplyIds, InForce, Gives;
    if op.ValidateEnds? && IsValidating(s, op.body) {
      EndGives(s, op.body, op.answer, op.now, User);
    }
  }

  // ----- The ids in force -----

  /** Operation `i` gave the id of a field, and since then no operation gave another one or dropped it. */
  predicate LastGiven(env: Ids, ops: seq<Op>, i: nat, f: Field) {
    && i < |ops|
    && Gives(After(env, ops[..i]), ops[i], f) != ""
    && forall j :: i < j < |ops| ==> Gives(After(env, ops[..j]), ops[j], f) == "" && !Drops(After(env, ops[..j]), ops[j])
  }

  lemma GivenNow(env: Ids, ops: seq<Op>, f: Field)
    requires ops != []
    ensures LastGiven(env, ops, |ops| - 1, f) <==> Gives(After(env, ops[..|ops| - 1]), ops[|ops| - 1], f) != ""
  {
    hide Gives, Drops, After;
  }

  lemma GivenBefore(env: Ids, ops: seq<Op>, i: nat, f: Field)
    requires ops != [] && i < |ops| - 1
    ensures LastGiven(env, ops, i, f)
      <==> LastGiven(env, ops[..|ops| - 1], i, f)
           && Gives(After(env, ops[..|ops| - 1]), ops[|ops| - 1], f) == "" && !Drops(After(env, ops[..|ops| - 1]), ops[|ops| - 1])
  {
    hide Gives, Drops, After;
    var before := ops[..|ops| - 1];
    assert before[..i] == ops[..i];
    forall j: nat | i < j < |before| ensures before[..j] == ops[..j] && before[j] == ops[j] {
    }
  }

  lemma LastStep(env: Ids, ops: seq<Op>)
    requires ops != []
    ensures After(env, ops) == Step(After(env, ops[..|ops| - 1]), ops[|ops| - 1])
  {
    hide Step;
  }

  /** An id is overridden if and only if some operation gave it and none dropped it since; it is the last one given. */
  lemma {:induction false} OverrideIsLastGiven(env: Ids, ops: seq<Op>, f: Field)
    ensures forall i: nat :: LastGiven(env, ops, i, f) ==>
      Of(After(env, ops).overrides, f) == Gives(After(env, ops[..i]), ops[i], f)
    ensures Of(After(env, ops).overrides, f) != "" ==> exists i: nat :: LastGiven(env, ops, i, f)
    decreases |ops|
  {
    hide Gives, Drops, Step, LastGiven, After;
    if ops == [] {
      NothingGiven(env, f);
    } else {
      var n := |ops| - 1;
      OverrideIsLastGiven(env, ops[..n], f);
      LastStep(env, ops);
      StepGives(After(env, ops[..n]), ops[n], f);
      GivenNow(env, ops, f);
      forall i: nat | LastGiven(env, ops, i, f)
        ensures i < |ops| && Of(After(env, ops).overrides, f) == Gives(After(env, ops[..i]), ops[i], f)
      {
        GivenIn(env, ops, i, f);
        if i < n {
          GivenBefore(env, ops, i, f);
          assert ops[..n][..i] == ops[..i];
        } else {
          NoGivenDrop(After(env, ops[..n]), ops[n], f);
        }
      }
      if Of(After(env, ops).overrides, f) != "" {
        if Gives(After(env, ops[..n]), ops[n], f) != "" {
          assert LastGiven(env, ops, n, f);
        } else {
          var i: nat :| LastGiven(env, ops[..n], i, f);
          GivenIn(env, ops[..n], i, f);
          GivenBefore(env, ops, i, f);
        }
      }
    }
  }

  lemma GivenIn(env: Ids, ops: seq<Op>, i: nat, f: Field)
    requires LastGiven(env, ops, i, f)
    ensures i < |ops|
  {
  }

  lemma NothingGiven(env: Ids, f: Field)
    ensures Of(After(env, []).overrides, f) == "" && forall i: nat :: !LastGiven(env, [], i, f)
  {
  }

  lemma NoGivenDrop(s: Identity, op: Op, f: Field)
    requires Gives(s, op, f) != ""
    ensures !Drops(s, op)
  {
  }

  /** Some operation gave the id of a field, and none since dropped it. */
  ghost predicate IsGiven(env: Ids, ops: seq<Op>, f: Field) {
    exists i: nat :: LastGiven(env, ops, i, f)
  }

  /** The id in force is the last one given since ids were last dropped, and without one that of the environment, trimmed. */
  lemma InForceIsLastGiven(env: Ids, ops: seq<Op>, f: Field)
    ensures forall i: nat :: LastGiven(env, ops, i, f) ==>
      Of(Bound(After(env, ops)), f) == Text.Trim(Gives(After(env, ops[..i]), ops[i], f))
    ensures !IsGiven(env, ops, f) ==> Of(Bound(After(env, ops)), f) == Text.Trim(Of(env, f))
  {
    hide After, LastGiven, Gives, Text.Trim;
    EnvIsFixed(env, ops);
    OverrideIsLastGiven(env, ops, f);
    GivenIsThere(env, ops, f);
  }

  lemma GivenIsThere(env: Ids, ops: seq<Op>, f: Field)
    ensures forall i: nat :: LastGiven(env, ops, i, f) ==> i < |ops| && Gives(After(env, ops[..i]), ops[i], f) != ""
  {
    hide After, Gives, Drops;
  }

  // ----- The credentials they are bound to -----

  /** Operation `i` bound the ids to `fingerprint`, and since then no operation bound them anew or dropped them. */
  predicate LastBound(env: Ids, ops: seq<Op>, i: nat, fingerprint: string) {
    && i < |ops|
    && Binds(After(env, ops[..i]), ops[i]) == Some(fingerprint)
    && forall j :: i < j < |ops| ==> Binds(After(env, ops[..j]), ops[j]) == None && !Drops(After(env, ops[..j]), ops[j])
  }

  lemma BoundNow(env: Ids, ops: seq<Op>, fingerprint: string)
    requires ops != []
    ensures LastBound(env, ops, |ops| - 1, fingerprint)
      <==> Binds(After(env, ops[..|ops| - 1]), ops[|ops| - 1]) == Some(fingerprint)
  {
    hide Binds, Drops, After;
  }

  lemma BoundBefore(env: Ids, ops: seq<Op>, i: nat, fingerprint: string)
    requires ops != [] && i < |ops| - 1
    ensures LastBound(env, ops, i, fingerprint)
      <==> LastBound(env, ops[..|ops| - 1], i, fingerprint)
           && Binds(After(env, ops[..|ops| - 1]), ops[|ops| - 1]) == None && !Drops(After(env, ops[..|ops| - 1]), ops[|ops| - 1])
  {
    hide Binds, Drops, After;
    var before := ops[..|ops| - 1];
    assert before[..i] == ops[..i];
    forall j: nat | i < j < |before| ensures before[..j] == ops[..j] && before[j] == ops[j] {
    }
  }

  lemma BoundIn(env: Ids, ops: seq<Op>, i: nat, fingerprint: string)
    requires LastBound(env, ops, i, fingerprint)
    ensures i < |ops|
  {
  }

  lemma NothingBound(env: Ids, fingerprint: string)
    ensures After(env, []).boundTo == None && forall i: nat :: !LastBound(env, [], i, fingerprint)
  {
  }

  lemma NoBoundDrop(s: Identity, op: Op)
    requires Binds(s, op).Some?
    ensures !Drops(s, op)
  {
  }

  /** The ids are bound to `fingerprint` if and only if some operation bound them to it and none since undid that. */
  lemma {:induction false} BindingIsLastBound(env: Ids, ops: seq<Op>, fingerprint: string)
    ensures After(env, ops).boundTo == Some(fingerprint) <==> exists i: nat :: LastBound(env, ops, i, fingerprint)
    decreases |ops|
  {
    hide Binds, Drops, Step, LastBound, After;
    if ops == [] {
      NothingBound(env, fingerprint);
    } else {
      var n := |ops| - 1;
      BindingIsLastBound(env, ops[..n], fingerprint);
      LastStep(env, ops);
      StepBinds(After(env, ops[..n]), ops[n]);
      BoundNow(env, ops, fingerprint);
      if Binds(After(env, ops[..n]), ops[n]).Some? {
        NoBoundDrop(After(env, ops[..n]), ops[n]);
      }
      forall i: nat | LastBound(env, ops, i, fingerprint) ensures After(env, ops).boundTo == Some(fingerprint) {
        BoundIn(env, ops, i, fingerprint);
        if i < n {
          BoundBefore(env, ops, i, fingerprint);
        }
      }
      if After(env, ops).boundTo == Some(fingerprint) {
        if Binds(After(env, ops[..n]), ops[n]) == Some(fingerprint) {
          assert LastBound(env, ops, n, fingerprint);
        } else {
          var i: nat :| LastBound(env, ops[..n], i, fingerprint);
          BoundIn(env, ops[..n], i, fingerprint);
          BoundBefore(env, ops, i, fingerprint);
        }
      }
    }
  }

  /** Operation `i` read the credentials that body `b` validates. */
  predicate ReadBy(ops: seq<Op>, i: nat, b: nat, fingerprint: string, startedAt: int) {
    && i < |ops| && ops[i].CredentialsRead? && ops[i].body == b && ops[i].apiKey != "" && ops[i].baseUrl != ""
    && Fingerprint(ops[i].apiKey, ops[i].baseUrl) == fingerprint && ops[i].now == startedAt
  }

  lemma StepValidates(s: Identity, op: Op, b: nat)
    requires IsValidating(Step(s, op), b)
    ensures var call := Step(s, op).bodies[b];
      || (IsValidating(s, b) && s.bodies[b] == call)
      || (op.CredentialsRead? && op.body == b && op.apiKey != "" && op.baseUrl != ""
          && call == Validating(Fingerprint(op.apiKey, op.baseUrl), op.now))
  {
    hide HasBoundIdentity, IdsOf, ApplyIds, Fingerprint;
  }

  /** A validate call runs under the credentials its body read, since when it read them. */
  lemma {:induction false} CallHasCredentials(env: Ids, ops: seq<Op>, b: nat) returns (i: nat)
    requires IsValidating(After(env, ops), b)
    ensures ReadBy(ops, i, b, After(env, ops).bodies[b].fingerprint, After(env, ops).bodies[b].startedAt)
    decreases |ops|
  {
    hide Step, Fingerprint;
    if ops != [] {
      var n := |ops| - 1;
      LastStep(env, ops);
      StepValidates(After(env, ops[..n]), ops[n], b);
      if IsValidating(After(env, ops[..n]), b) && After(env, ops[..n]).bodies[b] == After(env, ops).bodies[b] {
        i := CallHasCredentials(env, ops[..n], b);
      } else {
        i := n;
      }
    }
  }

  /**
    What a validate call returns comes into force: after a running call ends with some id, each field it
    returned is overridden by it, trimmed, each other field is as before, and the ids are bound to the
    credentials of the call.
   */
  lemma ReturnedIdsComeIntoForce(env: Ids, ops: seq<Op>, body: nat, answer: Validated, now: int)
    requires IsValidating(After(env, ops), body)
    ensures var s, op := After(env, ops), ValidateEnds(body, answer, now);
      var d := After(env, ops + [op]);
      && (forall f :: Of(d.overrides, f) == if Gives(s, op, f) != "" then Gives(s, op, f) else Of(s.overrides, f))
      && (forall f :: Gives(s, op, f) != "" ==> Of(Bound(d), f) == Gives(s, op, f))
      && ((exists f :: Gives(s, op, f) != "") ==> d.boundTo == Some(s.bodies[body].fingerprint))
  {
    hide Step, Gives, Drops, Text.Trim, Text.IsSpace;
    var s, op := After(env, ops), ValidateEnds(body, answer, now);
    assert (ops + [op])[..|ops|] == ops;
    LastStep(env, ops + [op]);
    StepBinds(s, op);
    NoEndDrop(s, op);
    forall f ensures Of(Step(s, op).overrides, f) == if Gives(s, op, f) != "" then Gives(s, op, f) else Of(s.overrides, f) {
      StepGives(s, op, f);
    }
    forall f | Gives(s, op, f) != "" ensures Of(Bound(Step(s, op)), f) == Gives(s, op, f) {
      GivenTrimmed(s, op, f);
    }
  }

  lemma NoEndDrop(s: Identity, op: Op)
    requires op.ValidateEnds?
    ensures !Drops(s, op)
  {
  }

  lemma GivenTrimmed(s: Identity, op: Op, f: Field)
    requires op.ValidateEnds?
    ensures Text.Trim(Gives(s, op, f)) == Gives(s, op, f)
  {
    hide Text.Trim;
    assert Text.Trim("") == "" by { TrimNothing(); }
    if op.ValidateEnds? && IsValidating(s, op.body) && ReturnedIn(op.answer, f).Some? {
      Text.TrimTwice(ReturnedIn(op.answer, f).value);
    }
  }

  lemma TrimNothing()
    ensures Text.Trim("") == ""
  {
  }

  // ----- When validate is called -----

  /** When the cooldown after these calls is over: a failed call needs one, and the clock begins at zero. */
  function CooledAt(attempts: seq<Attempt>): int {
    if attempts == [] || attempts[|attempts| - 1].ids.Some? then 0
    else attempts[|attempts| - 1].endedAt + ENSURE_COOLDOWN_MS
  }

  /** The cooldown variables tell of the last completed call; while one runs, `lastAttempt` is about that one. */
  ghost predicate Resting(s: Identity) {
    && s.nextEnsureAttemptAt == CooledAt(s.attempts)
    && (forall b :: IsValidating(s, b) ==> s.lastAttempt == Some(s.bodies[b].fingerprint))
    && ((forall b :: !IsValidating(s, b)) ==>
          s.lastAttempt == if s.attempts == [] then None else Some(s.attempts[|s.attempts| - 1].fingerprint))
  }

  lemma SameRest(s: Identity, d: Identity)
    requires Resting(s) && d.attempts == s.attempts && d.lastAttempt == s.lastAttempt && d.nextEnsureAttemptAt == s.nextEnsureAttemptAt
    requires forall b :: IsValidating(d, b) <==> IsValidating(s, b)
    requires forall b :: IsValidating(s, b) ==> b in d.bodies && d.bodies[b] == s.bodies[b]
    ensures Resting(d)
  {
  }

  lemma ReadRests(s: Identity, body: nat, fingerprint: string, now: int)
    requires Resting(s) && SingleFlight(s) && IsReading(s, body)
    ensures Resting(Proceed(s, body, fingerprint, now))
  {
    hide HasBoundIdentity;
    var d := Proceed(s, body, fingerprint, now);
    assert forall b :: !IsValidating(s, b);
    if body in d.bodies {
      assert IsValidating(d, body);
    }
  }

  lemma EndRests(s: Identity, body: nat, answer: Validated, now: int)
    requires Resting(s) && SingleFlight(s) && IsValidating(s, body)
    ensures Resting(EndValidate(s, body, answer, now))
  {
    hide IdsOf, ApplyIds;
    assert forall b :: b !in s.bodies - {body};
  }

  lemma StepRests(s: Identity, op: Op)
    requires Resting(s) && SingleFlight(s)
    ensures Resting(Step(s, op))
  {
    hide Resting, SingleFlight, Proceed, EndValidate, Fingerprint;
    match op
    case Ensure =>
      if !s.inFlight {
        NewIsReading(s);
        SameRest(s, StartBody(s));
      }
    case ReadFails(body) => if IsReading(s, body) { SameRest(s, Finish(s, body)); }
    case CredentialsRead(body, apiKey, baseUrl, unreachable, now) =>
      if IsReading(s, body) {
        SameRest(s, Finish(s.(lastEnsureUnreachable := unreachable), body));
        SameRest(s, s.(lastEnsureUnreachable := false));
        SameFlight(s, s.(lastEnsureUnreachable := false));
        ReadRests(s.(lastEnsureUnreachable := false), body, Fingerprint(apiKey, baseUrl), now);
      }
    case ValidateEnds(body, answer, now) => if IsValidating(s, body) { EndRests(s, body, answer, now); }
    case Apply(ids) => SameRest(s, s.(overrides := ApplyIds(s.overrides, ids)));
  }

  lemma {:induction false} RunRests(env: Ids, ops: seq<Op>)
    ensures Resting(After(env, ops))
    decreases |ops|
  {
    if ops != [] {
      hide Step, Resting, SingleFlight;
      RunRests(env, ops[..|ops| - 1]);
      RunKeepsFlight(env, ops[..|ops| - 1]);
      StepRests(After(env, ops[..|ops| - 1]), ops[|ops| - 1]);
    }
  }

  /** The last completed validate call was made with these credentials, and its cooldown lasts beyond `now`. */
  predicate HeldOff(attempts: seq<Attempt>, fingerprint: string, now: int) {
    attempts != [] && attempts[|attempts| - 1].fingerprint == fingerprint && now < CooledAt(attempts)
  }

  /**
    When validate is called: a body that has read its credentials calls it if and only if the ids in force are
    incomplete or bound to other credentials, and no call with the same credentials, the last one, is still
    cooling down.
   */
  lemma ValidateIsCalled(env: Ids, ops: seq<Op>, op: Op)
    requires Reads(After(env, ops), op)
    ensures var s, d, fingerprint := After(env, ops), After(env, ops + [op]), Fingerprint(op.apiKey, op.baseUrl);
      && (IsValidating(d, op.body)
          <==> !(Complete(s) && (s.boundTo == None || s.boundTo == Some(fingerprint)))
               && !HeldOff(s.attempts, fingerprint, op.now))
      && (IsValidating(d, op.body) ==> d.bodies[op.body] == Validating(fingerprint, op.now))
      && (!IsValidating(d, op.body) ==> op.body !in d.bodies)
  {
    hide After, Fingerprint, SingleFlight, InForce;
    assert (ops + [op])[..|ops|] == ops;
    LastStep(env, ops + [op]);
    RunRests(env, ops);
    RunKeepsFlight(env, ops);
    OnlyReads(After(env, ops), op.body);
  }

  lemma OnlyReads(s: Identity, body: nat)
    requires SingleFlight(s) && IsReading(s, body)
    ensures forall b :: !IsValidating(s, b)
  {
  }

  /** `op` ends the body that runs: its read or its validate call is over and starts nothing more. */
  predicate EndsBody(s: Identity, op: Op) {
    match op
    case ReadFails(body) => IsReading(s, body)
    case CredentialsRead(body, apiKey, baseUrl, _, _) => IsReading(s, body) && (apiKey == "" || baseUrl == "")
    case ValidateEnds(body, _, _) => IsValidating(s, body)
    case _ => false
  }

  lemma StepEnds(s: Identity, op: Op)
    requires SingleFlight(s) && EndsBody(s, op)
    ensures Step(s, op).bodies == map[] && !Step(s, op).inFlight
  {
    hide IdsOf, ApplyIds, Fingerprint, Proceed, SingleFlight;
    FinishKeepsFlight(s, op.body);
  }

  /** However a body ends, its promise is given up, and the next ensure starts another body. */
  lemma EndedBodyMakesWay(env: Ids, ops: seq<Op>, op: Op)
    requires EndsBody(After(env, ops), op)
    ensures After(env, ops + [op]).bodies == map[]
    ensures var d := After(env, ops + [op, Ensure]); d.bodies == map[After(env, ops + [op]).nextBody := Reading]
  {
    hide Step, EndsBody, SingleFlight;
    assert (ops + [op])[..|ops|] == ops;
    assert (ops + [op, Ensure])[..|ops| + 1] == ops + [op];
    LastStep(env, ops + [op]);
    LastStep(env, ops + [op, Ensure]);
    RunKeepsFlight(env, ops);
    StepEnds(After(env, ops), op);
    EnsureStarts(After(env, ops + [op]));
  }

  lemma EnsureStarts(s: Identity)
    requires s.bodies == map[] && !s.inFlight
    ensures Step(s, Ensure).bodies == map[s.nextBody := Reading]
  {
  }

  /** An ensure starts a body if and only if none runs, whatever happened before. */
  lemma EnsureRuns(env: Ids, ops: seq<Op>)
    ensures var s, d := After(env, ops), After(env, ops + [Ensure]);
      d.bodies == if s.bodies == map[] then map[s.nextBody := Reading] else s.bodies
  {
    hide After;
    assert (ops + [Ensure])[..|ops|] == ops;
    LastStep(env, ops + [Ensure]);
    RunKeepsFlight(env, ops);
    var s := After(env, ops);
    if s.bodies != map[] {
      var b :| b in s.bodies;
      assert s.inFlight;
    }
  }

  // ----- Whether the credential store is down -----

  /** A body reads credentials, whatever they are. */
  predicate ReadsAny(s: Identity, op: Op) {
    op.CredentialsRead? && IsReading(s, op.body)
  }

  /** The store was out of reach when it was last read, at operation `i`, and credentials were missing. */
  predicate LastReadFailed(env: Ids, ops: seq<Op>, i: nat) {
    && i < |ops|
    && ReadsAny(After(env, ops[..i]), ops[i]) && ops[i].unreachable && (ops[i].apiKey == "" || ops[i].baseUrl == "")
    && forall j :: i < j < |ops| ==> !ReadsAny(After(env, ops[..j]), ops[j])
  }

  lemma StepUnreachable(s: Identity, op: Op)
    ensures Step(s, op).lastEnsureUnreachable
      == if ReadsAny(s, op) then op.unreachable && (op.apiKey == "" || op.baseUrl == "") else s.lastEnsureUnreachable
  {
    hide HasBoundIdentity, IdsOf, ApplyIds, Fingerprint;
  }

  lemma FailedBefore(env: Ids, ops: seq<Op>, i: nat)
    requires ops != [] && i < |ops| - 1
    ensures LastReadFailed(env, ops, i)
      <==> LastReadFailed(env, ops[..|ops| - 1], i) && !ReadsAny(After(env, ops[..|ops| - 1]), ops[|ops| - 1])
  {
    hide ReadsAny, After;
    var before := ops[..|ops| - 1];
    assert before[..i] == ops[..i];
    forall j: nat | i < j < |before| ensures before[..j] == ops[..j] && before[j] == ops[j] {
    }
  }

  lemma FailedNow(env: Ids, ops: seq<Op>)
    requires ops != []
    ensures var last := ops[|ops| - 1];
      LastReadFailed(env, ops, |ops| - 1)
      <==> ReadsAny(After(env, ops[..|ops| - 1]), last) && last.unreachable && (last.apiKey == "" || last.baseUrl == "")
  {
    hide ReadsAny, After;
  }

  lemma FailedIn(env: Ids, ops: seq<Op>, i: nat)
    requires LastReadFailed(env, ops, i)
    ensures i < |ops|
  {
  }

  lemma NotDownAtFirst(env: Ids)
    ensures !After(env, []).lastEnsureUnreachable && forall i: nat :: !LastReadFailed(env, [], i)
  {
  }

  /** The store is reported out of reach if and only if it was so at the last read, and credentials were missing. */
  lemma {:induction false} UnreachableIsLastRead(env: Ids, ops: seq<Op>)
    ensures After(env, ops).lastEnsureUnreachable <==> exists i: nat :: LastReadFailed(env, ops, i)
    decreases |ops|
  {
    hide Step, ReadsAny, LastReadFailed, After;
    if ops == [] {
      NotDownAtFirst(env);
    } else {
      var n := |ops| - 1;
      UnreachableIsLastRead(env, ops[..n]);
      LastStep(env, ops);
      StepUnreachable(After(env, ops[..n]), ops[n]);
      FailedNow(env, ops);
      if i: nat :| LastReadFailed(env, ops, i) {
        FailedIn(env, ops, i);
        if i < n {
          FailedBefore(env, ops, i);
        }
      }
      if After(env, ops).lastEnsureUnreachable && !ReadsAny(After(env, ops[..n]), ops[n]) {
        var i: nat :| LastReadFailed(env, ops[..n], i);
        FailedIn(env, ops[..n], i);
        FailedBefore(env, ops, i);
      }
    }
  }
}
