/** Bot rotation: handlers of a departed bot, and the reset that a new token causes. */
module DedupRotation {
  import opened Options
  import opened DedupSpec
  import opened DedupProofs
  import Eviction

  /** What a caller sees of a call. */
  datatype Output = Answered(answer: Answer) | Fetched(response: Option<Response>)

  function OutputOf(c: Cache, call: Call): seq<Output> {
    match call.op
    case GetOp(id) => [Fetched(Lookup(c, id, call.now))]
    case ReserveOp(id) => [Answered(ReserveAnswer(c, id, call.now))]
    case _ => []
  }

  function Outputs(c: Cache, calls: seq<Call>): seq<Output>
    decreases |calls|
  {
    if calls == [] then []
    else
      var before := calls[..|calls| - 1];
      Outputs(c, before) + OutputOf(Run(c, before), calls[|calls| - 1])
  }

  /** A stale completion changes nothing and answers nothing. */
  lemma StaleStep(c: Cache, call: Call)
    requires Stale(call, c.generation)
    ensures Step(c, call) == c && OutputOf(c, call) == []
  {
    hide Insert;
  }

  /** Dropping every stale completion from a run changes no state and no answer. */
  lemma {:induction false} StaleCompletionsDoNothing(ttlMs: int, maxSize: int, calls: seq<Call>)
    ensures After(ttlMs, maxSize, EraseStale(calls)) == After(ttlMs, maxSize, calls)
    ensures Outputs(New(ttlMs, maxSize), EraseStale(calls)) == Outputs(New(ttlMs, maxSize), calls)
    ensures Finalized(EraseStale(calls)) == Finalized(calls)
    ensures Resets(EraseStale(calls)) == Resets(calls)
    decreases |calls|
  {
    if calls != [] {
      hide Step, OutputOf;
      var before, last := calls[..|calls| - 1], calls[|calls| - 1];
      StaleCompletionsDoNothing(ttlMs, maxSize, before);
      GenerationCountsResets(ttlMs, maxSize, before);
      if Stale(last, Resets(before)) {
        assert EraseStale(calls) == EraseStale(before);
        StaleStep(After(ttlMs, maxSize, before), last);
      } else {
        assert EraseStale(calls)[..|EraseStale(calls)| - 1] == EraseStale(before);
      }
    }
  }

  // ----- After a reset the cache is a fresh one -----

  /** `d` is `c` with every generation in it counted from `k` higher. */
  ghost predicate Mirrors(c: Cache, d: Cache, k: int) {
    && d.ttlMs == c.ttlMs && d.maxSize == c.maxSize && d.mark == c.mark
    && d.generation == c.generation + k
    && d.entries.order == c.entries.order
    && d.entries.table.Keys == c.entries.table.Keys
    && forall id :: id in c.entries.table ==> MirrorsEntry(c.entries.table[id], d.entries.table[id], k)
  }

  predicate MirrorsEntry(e: Entry, e': Entry, k: int) {
    e' == e.(generation := e.generation + k)
  }

  function RenumberCall(call: Call, k: int): Call {
    match call.op
    case UnreserveOp(id, g) => call.(op := UnreserveOp(id, g + k))
    case FinalizeOp(id, r, g) => call.(op := FinalizeOp(id, r, g + k))
    case _ => call
  }

  /** The same calls, with the generations they hand back counted from `k` higher. */
  function Renumber(calls: seq<Call>, k: int): (calls': seq<Call>)
    ensures |calls'| == |calls|
    ensures forall i :: 0 <= i < |calls| ==> calls'[i] == RenumberCall(calls[i], k)
  {
    if calls == [] then [] else Renumber(calls[..|calls| - 1], k) + [RenumberCall(calls[|calls| - 1], k)]
  }

  lemma MirrorsRestrict(c: Cache, d: Cache, live: set<int>, k: int)
    requires Mirrors(c, d, k)
    ensures Mirrors(c.(entries := c.entries.Restrict(live)), d.(entries := d.entries.Restrict(live)), k)
  {
  }

  lemma MirrorsDelete(c: Cache, d: Cache, id: int, k: int)
    requires Mirrors(c, d, k)
    ensures Mirrors(c.(entries := c.entries.Delete(id)), d.(entries := d.entries.Delete(id)), k)
  {
    MirrorsRestrict(c, d, c.entries.table.Keys - {id}, k);
  }

  lemma MirrorsSweep(c: Cache, d: Cache, now: int, k: int)
    requires Mirrors(c, d, k)
    ensures Mirrors(SweepExpired(c, now), SweepExpired(d, now), k)
  {
    MirrorsLives(c, d, now, k);
    MirrorsRestrict(c, d, Eviction.LiveIn(c.entries, LivesAt(now)), k);
  }

  lemma MirrorsLives(c: Cache, d: Cache, now: int, k: int)
    requires Mirrors(c, d, k)
    ensures Eviction.LiveIn(c.entries, LivesAt(now)) == Eviction.LiveIn(d.entries, LivesAt(now))
  {
    forall id ensures id in Eviction.LiveIn(c.entries, LivesAt(now)) <==> id in Eviction.LiveIn(d.entries, LivesAt(now)) {
      assert id in c.entries.table ==> MirrorsEntry(c.entries.table[id], d.entries.table[id], k);
    }
  }

  lemma MirrorsMakeRoom(c: Cache, d: Cache, now: int, k: int)
    requires Mirrors(c, d, k)
    ensures Mirrors(MakeRoom(c, now), MakeRoom(d, now), k)
  {
    MirrorsSweep(c, d, now, k);
    var swept := SweepExpired(c, now);
    if swept.entries.order != [] {
      MirrorsDelete(swept, SweepExpired(d, now), swept.entries.order[0], k);
    }
  }

  lemma MirrorsInsert(c: Cache, d: Cache, id: int, e: Entry, now: int, k: int)
    requires Mirrors(c, d, k)
    ensures Mirrors(Insert(c, id, e, now), Insert(d, id, e.(generation := e.generation + k), now), k)
  {
    hide MakeRoom;
    MirrorsMakeRoom(c, d, now, k);
  }

  lemma MirrorsDropIfExpired(c: Cache, d: Cache, id: int, now: int, k: int)
    requires Mirrors(c, d, k)
    ensures Mirrors(DropIfExpired(c, id, now), DropIfExpired(d, id, now), k)
    ensures c.Live(id, now) == d.Live(id, now)
    ensures Lookup(c, id, now) == Lookup(d, id, now)
  {
    MirrorsDelete(c, d, id, k);
    assert id in c.entries.table ==> MirrorsEntry(c.entries.table[id], d.entries.table[id], k);
  }

  lemma MirrorsReserve(c: Cache, d: Cache, id: int, now: int, k: int)
    requires Mirrors(c, d, k)
    ensures Mirrors(Reserve(c, id, now), Reserve(d, id, now), k)
    ensures ReserveAnswer(c, id, now) == ReserveAnswer(d, id, now)
  {
    hide Insert, DropIfExpired;
    MirrorsDropIfExpired(c, d, id, now, k);
    MirrorsInsert(DropIfExpired(c, id, now), DropIfExpired(d, id, now), id,
      Entry("", 0, now + c.ttlMs, true, c.generation), now, k);
  }

  lemma MirrorsFinalize(c: Cache, d: Cache, id: int, r: Response, g: int, now: int, k: int)
    requires Mirrors(c, d, k)
    ensures Mirrors(Finalize(c, id, r, g, now), Finalize(d, id, r, g + k, now), k)
  {
    hide Insert;
    MirrorsInsert(c.(mark := Raise(c.mark, id)), d.(mark := Raise(d.mark, id)), id,
      Entry(r.body, r.status, now + c.ttlMs, false, c.generation), now, k);
  }

  lemma MirrorsUnreserve(c: Cache, d: Cache, id: int, g: int, k: int)
    requires Mirrors(c, d, k)
    ensures Mirrors(Unreserve(c, id, g), Unreserve(d, id, g + k), k)
  {
    MirrorsDelete(c, d, id, k);
    assert id in c.entries.table ==> MirrorsEntry(c.entries.table[id], d.entries.table[id], k);
  }

  /** Every operation treats generations only by comparing them for equality. */
  lemma MirrorsStep(c: Cache, d: Cache, call: Call, k: int)
    requires Mirrors(c, d, k)
    ensures Mirrors(Step(c, call), Step(d, RenumberCall(call, k)), k)
    ensures OutputOf(c, call) == OutputOf(d, RenumberCall(call, k))
  {
    hide Mirrors, Reserve, Finalize, Unreserve, SweepExpired, DropIfExpired, Lookup, ReserveAnswer;
    match call.op
    case GetOp(id) => MirrorsDropIfExpired(c, d, id, call.now, k);
    case ReserveOp(id) => MirrorsReserve(c, d, id, call.now, k);
    case UnreserveOp(id, g) => MirrorsUnreserve(c, d, id, g, k);
    case FinalizeOp(id, r, g) => MirrorsFinalize(c, d, id, r, g, call.now, k);
    case ResetOp => MirrorsReset(c, d, k);
    case SweepOp => MirrorsSweep(c, d, call.now, k);
  }

  lemma MirrorsReset(c: Cache, d: Cache, k: int)
    requires Mirrors(c, d, k)
    ensures Mirrors(Reset(c), Reset(d), k)
  {
  }

  lemma {:induction false} MirrorsRun(c: Cache, d: Cache, calls: seq<Call>, k: int)
    requires Mirrors(c, d, k)
    ensures Mirrors(Run(c, calls), Run(d, Renumber(calls, k)), k)
    ensures Outputs(c, calls) == Outputs(d, Renumber(calls, k))
    decreases |calls|
  {
    hide Step, OutputOf, Mirrors;
    if calls != [] {
      var before := calls[..|calls| - 1];
      MirrorsRun(c, d, before, k);
      assert Renumber(calls, k)[..|calls| - 1] == Renumber(before, k);
      MirrorsStep(Run(c, before), Run(d, Renumber(before, k)), calls[|calls| - 1], k);
    }
  }

  lemma {:induction false} RenumberBack(calls: seq<Call>, k: int)
    ensures Renumber(Renumber(calls, -k), k) == calls
  {
    if calls != [] {
      var n := |calls| - 1;
      RenumberBack(calls[..n], k);
      assert Renumber(calls, -k)[..n] == Renumber(calls[..n], -k);
    }
  }

  /**
    After a reset the cache is, in state and in answers, a new cache that has seen only the calls since:
    nothing the departed bot did can be observed, whatever its handlers still hand back.
   */
  lemma ResetIsFreshStart(ttlMs: int, maxSize: int, departed: seq<Call>, at: int, calls: seq<Call>)
    ensures var g: int := Resets(departed) + 1;
      var start := departed + [Call(at, ResetOp)];
      && Mirrors(After(ttlMs, maxSize, Renumber(calls, -g)), After(ttlMs, maxSize, start + calls), g)
      && Outputs(After(ttlMs, maxSize, start), calls) == Outputs(New(ttlMs, maxSize), Renumber(calls, -g))
  {
    hide Run, Outputs, Mirrors, Renumber, Resets;
    var g: int := Resets(departed) + 1;
    var start := departed + [Call(at, ResetOp)];
    ResetMirrorsNew(ttlMs, maxSize, departed, at);
    RenumberBack(calls, g);
    MirrorsRun(New(ttlMs, maxSize), After(ttlMs, maxSize, start), Renumber(calls, -g), g);
    RunSplit(New(ttlMs, maxSize), start, calls);
  }

  lemma ResetMirrorsNew(ttlMs: int, maxSize: int, departed: seq<Call>, at: int)
    ensures Mirrors(New(ttlMs, maxSize), After(ttlMs, maxSize, departed + [Call(at, ResetOp)]), Resets(departed) + 1)
  {
    hide Run, Mirrors, Resets, Reset;
    var start := departed + [Call(at, ResetOp)];
    GenerationCountsResets(ttlMs, maxSize, departed);
    RunValid(New(ttlMs, maxSize), departed);
    assert start[..|start| - 1] == departed;
    RunStep(New(ttlMs, maxSize), start);
    ResetMirrors(After(ttlMs, maxSize, departed), ttlMs, maxSize);
  }

  lemma ResetMirrors(c: Cache, ttlMs: int, maxSize: int)
    requires c.ttlMs == ttlMs && c.maxSize == maxSize
    ensures Mirrors(New(ttlMs, maxSize), Reset(c), c.generation + 1)
  {
  }

  // ----- The token that drives the resets -----

  /** An event of the gateway: a cache call made by the route, or a credential change with the stored bot token. */
  datatype Event = Route(call: Call) | Credentials(now: int, token: string)

  /** The last token fingerprint (`None`: no token is stored), and the cache it guards. */
  datatype Driver = Driver(fingerprint: Option<string>, cache: Cache)

  function Fingerprint(hash: string -> string, token: string): Option<string> {
    if token == "" then None else Some(hash(token))
  }

  function DriverStep(hash: string -> string, d: Driver, e: Event): Driver {
    match e
    case Route(call) => d.(cache := Step(d.cache, call))
    case Credentials(_, token) =>
      if Fingerprint(hash, token) == d.fingerprint then d
      else Driver(Fingerprint(hash, token), Reset(d.cache))
  }

  function DriverRun(hash: string -> string, d: Driver, events: seq<Event>): Driver
    decreases |events|
  {
    if events == [] then d
    else DriverStep(hash, DriverRun(hash, d, events[..|events| - 1]), events[|events| - 1])
  }

  /** The token in force after `events`: the empty one before any is known. */
  function TokenAfter(events: seq<Event>): string
    decreases |events|
  {
    if events == [] then ""
    else if events[|events| - 1].Credentials? then events[|events| - 1].token
    else TokenAfter(events[..|events| - 1])
  }

  /** What the events mean for the cache: the route's calls, and a reset wherever the token changed. */
  function CacheCalls(events: seq<Event>): seq<Call>
    decreases |events|
  {
    if events == [] then []
    else
      var before := events[..|events| - 1];
      CacheCalls(before) + EventCalls(TokenAfter(before), events[|events| - 1])
  }

  /** What an event means for the cache when `token` is in force. */
  function EventCalls(token: string, e: Event): seq<Call> {
    match e
    case Route(call) => [call]
    case Credentials(now, token') => if token' == token then [] else [Call(now, ResetOp)]
  }

  /** What the gateway makes of an event: it compares fingerprints. */
  function HashedCalls(hash: string -> string, token: string, e: Event): seq<Call> {
    match e
    case Route(call) => [call]
    case Credentials(now, token') =>
      if Fingerprint(hash, token') == Fingerprint(hash, token) then [] else [Call(now, ResetOp)]
  }

  function GatewayCalls(hash: string -> string, events: seq<Event>): seq<Call>
    decreases |events|
  {
    if events == [] then []
    else
      var before := events[..|events| - 1];
      GatewayCalls(hash, before) + HashedCalls(hash, TokenAfter(before), events[|events| - 1])
  }

  function DriverAfter(hash: string -> string, ttlMs: int, maxSize: int, events: seq<Event>): Driver {
    DriverRun(hash, Driver(None, New(ttlMs, maxSize)), events)
  }

  lemma AfterAppend(ttlMs: int, maxSize: int, calls: seq<Call>, call: Call)
    ensures After(ttlMs, maxSize, calls + [call]) == Step(After(ttlMs, maxSize, calls), call)
  {
    hide Step;
    assert (calls + [call])[..|calls|] == calls;
  }

  lemma EventIsCalls(hash: string -> string, ttlMs: int, maxSize: int, calls: seq<Call>, token: string, e: Event)
    ensures DriverStep(hash, Driver(Fingerprint(hash, token), After(ttlMs, maxSize, calls)), e)
         == Driver(Fingerprint(hash, if e.Credentials? then e.token else token),
                   After(ttlMs, maxSize, calls + HashedCalls(hash, token, e)))
  {
    hide Reserve, Finalize, Unreserve, SweepExpired, DropIfExpired, Fingerprint, Run;
    if HashedCalls(hash, token, e) == [] {
      assert calls + [] == calls;
    } else {
      AfterAppend(ttlMs, maxSize, calls, HashedCalls(hash, token, e)[0]);
    }
  }

  /** For any hash, the gateway's cache has seen its traffic and a reset wherever the fingerprint changed. */
  lemma {:induction false} ResetsFollowFingerprints(hash: string -> string, ttlMs: int, maxSize: int, events: seq<Event>)
    ensures DriverAfter(hash, ttlMs, maxSize, events)
         == Driver(Fingerprint(hash, TokenAfter(events)), After(ttlMs, maxSize, GatewayCalls(hash, events)))
    decreases |events|
  {
    assert Fingerprint(hash, "") == None;
    if events != [] {
      hide Run, DriverStep;
      var before := events[..|events| - 1];
      ResetsFollowFingerprints(hash, ttlMs, maxSize, before);
      EventIsCalls(hash, ttlMs, maxSize, GatewayCalls(hash, before), TokenAfter(before), events[|events| - 1]);
    }
  }

  /** An event that replaces the token by one with the same fingerprint. */
  predicate Collides(hash: string -> string, token: string, e: Event) {
    e.Credentials? && e.token != token && Fingerprint(hash, e.token) == Fingerprint(hash, token)
  }

  /** No token of the run is replaced by another one with the same fingerprint. */
  ghost predicate NoCollision(hash: string -> string, events: seq<Event>) {
    forall n :: 0 <= n < |events| ==> !Collides(hash, TokenAfter(events[..n]), events[n])
  }

  lemma NoCollisionAppend(hash: string -> string, events: seq<Event>)
    requires events != []
    ensures var before, e := events[..|events| - 1], events[|events| - 1];
      NoCollision(hash, events) <==> NoCollision(hash, before) && !Collides(hash, TokenAfter(before), e)
  {
    hide Collides, TokenAfter;
    var before := events[..|events| - 1];
    forall n | 0 <= n < |before| ensures before[..n] == events[..n] && before[n] == events[n] {
    }
  }

  lemma {:induction false} ResetsAppend(calls: seq<Call>, more: seq<Call>)
    ensures Resets(calls + more) == Resets(calls) + Resets(more)
    decreases |more|
  {
    if more == [] {
      assert calls + more == calls;
    } else {
      assert (calls + more)[..|calls + more| - 1] == calls + more[..|more| - 1];
      ResetsAppend(calls, more[..|more| - 1]);
    }
  }

  lemma EventResets(hash: string -> string, token: string, e: Event)
    ensures Collides(hash, token, e) ==> Resets(HashedCalls(hash, token, e)) < Resets(EventCalls(token, e))
    ensures !Collides(hash, token, e) ==> HashedCalls(hash, token, e) == EventCalls(token, e)
  {
    if e.Credentials? {
      assert [Call(e.now, ResetOp)][..0] == [];
    }
  }

  /** Each collision costs one reset, and nothing makes up for it. */
  lemma {:induction false} CollisionsCostResets(hash: string -> string, events: seq<Event>)
    ensures Resets(GatewayCalls(hash, events)) <= Resets(CacheCalls(events))
    ensures NoCollision(hash, events) ==> GatewayCalls(hash, events) == CacheCalls(events)
    ensures !NoCollision(hash, events) ==> Resets(GatewayCalls(hash, events)) < Resets(CacheCalls(events))
    decreases |events|
  {
    if events != [] {
      hide NoCollision, Collides, HashedCalls, EventCalls, Resets, TokenAfter;
      var before, e := events[..|events| - 1], events[|events| - 1];
      CollisionsCostResets(hash, before);
      NoCollisionAppend(hash, events);
      EventResets(hash, TokenAfter(before), e);
      ResetsAppend(GatewayCalls(hash, before), HashedCalls(hash, TokenAfter(before), e));
      ResetsAppend(CacheCalls(before), EventCalls(TokenAfter(before), e));
    }
  }

  /**
    The gateway resets the cache exactly when the stored token changes, so everything proved of runs of the
    cache holds with "reset" read as "the bot changed", if and only if the hash does not confuse a token of the
    run with the one it replaces; a poll that reports the same token does nothing.
   */
  lemma ResetsFollowTokens(hash: string -> string, ttlMs: int, maxSize: int, events: seq<Event>)
    ensures DriverAfter(hash, ttlMs, maxSize, events)
         == Driver(Fingerprint(hash, TokenAfter(events)), After(ttlMs, maxSize, CacheCalls(events)))
       <==> NoCollision(hash, events)
  {
    hide After, DriverAfter, NoCollision, GatewayCalls, CacheCalls, Resets, TokenAfter;
    ResetsFollowFingerprints(hash, ttlMs, maxSize, events);
    CollisionsCostResets(hash, events);
    GenerationCountsResets(ttlMs, maxSize, GatewayCalls(hash, events));
    GenerationCountsResets(ttlMs, maxSize, CacheCalls(events));
  }

  predicate HashedApart(hash: string -> string, e: Event, f: Event) {
    e.Credentials? && f.Credentials? && hash(e.token) == hash(f.token) ==> e.token == f.token
  }

  /** Hashing only the tokens of the run without collision is enough for that. */
  lemma DistinctHashesSuffice(hash: string -> string, events: seq<Event>)
    requires forall i, j :: 0 <= i < |events| && 0 <= j < |events| ==> HashedApart(hash, events[i], events[j])
    ensures NoCollision(hash, events)
  {
    forall n | 0 <= n < |events| ensures !Collides(hash, TokenAfter(events[..n]), events[n]) {
      TokenIsOneOf(events[..n]);
      if TokenAfter(events[..n]) != "" {
        var i :| 0 <= i < n && events[..n][i].Credentials? && events[..n][i].token == TokenAfter(events[..n]);
        assert events[i] == events[..n][i];
        assert HashedApart(hash, events[n], events[i]);
      }
    }
  }

  lemma {:induction false} TokenIsOneOf(events: seq<Event>)
    ensures TokenAfter(events) == "" || exists i :: 0 <= i < |events| && events[i].Credentials? && events[i].token == TokenAfter(events)
    decreases |events|
  {
    if events != [] && !events[|events| - 1].Credentials? {
      var before := events[..|events| - 1];
      TokenIsOneOf(before);
      if TokenAfter(before) != "" {
        var i :| 0 <= i < |before| && before[i].Credentials? && before[i].token == TokenAfter(before);
        assert events[i] == before[i];
      }
    }
  }

  /** The mark after any run is the highest id finalized, by a handler of this bot, since the token last changed. */
  lemma MarkFollowsToken(hash: string -> string, ttlMs: int, maxSize: int, events: seq<Event>)
    requires NoCollision(hash, events)
    ensures var d := DriverAfter(hash, ttlMs, maxSize, events);
      var ids := Finalized(CacheCalls(events));
      && (d.cache.mark.None? <==> ids == {})
      && (d.cache.mark.Some? ==> d.cache.mark.value in ids && forall f :: f in ids ==> f <= d.cache.mark.value)
  {
    hide After, DriverAfter, NoCollision, CacheCalls, Finalized;
    ResetsFollowTokens(hash, ttlMs, maxSize, events);
    MarkIsMaximum(ttlMs, maxSize, CacheCalls(events));
  }
}
