/** What the dedup cache answers, told by the calls it got and the reserves it granted. */
module DedupHistory {
  import opened Options
  import opened JsMaps
  import opened DedupSpec
  import opened DedupProofs
  import DedupBound
  import Eviction

  /** `call` inserts while the live keys behind `id` leave no other place: `id` is pushed out. */
  predicate PushesOut(c: Cache, call: Call, id: int) {
    Inserting(c, call) && |Behind(c, id, call.now)| + 1 >= Eviction.Room(c.maxSize)
  }

  /**
    Call `j` ends what an earlier claim of `id` gave it: the cache is reset, `id` is claimed anew, it is given
    back while `unfinished` by a handler of the current generation, or it is pushed out.
   */
  predicate Ends(ttlMs: int, maxSize: int, calls: seq<Call>, j: nat, id: int, unfinished: bool)
    requires j < |calls|
  {
    var c := After(ttlMs, maxSize, calls[..j]);
    || calls[j].op.ResetOp?
    || Claims(c, calls[j], id)
    || (unfinished && calls[j].op == UnreserveOp(id, Resets(calls[..j])))
    || PushesOut(c, calls[j], id)
  }

  /** Call `i` claims `id`, and no later call ends that. */
  predicate Standing(ttlMs: int, maxSize: int, calls: seq<Call>, i: nat, id: int) {
    && i < |calls|
    && Claims(After(ttlMs, maxSize, calls[..i]), calls[i], id)
    && forall j :: i < j < |calls| ==> !Ends(ttlMs, maxSize, calls, j, id, calls[i].op.ReserveOp?)
  }

  /** What a claim gives its id. */
  function Given(call: Call, ttlMs: int, generation: int): Entry {
    if call.op.FinalizeOp?
    then Entry(call.op.response.body, call.op.response.status, call.now + ttlMs, false, generation)
    else Entry("", 0, call.now + ttlMs, true, generation)
  }

  // ----- One call -----

  lemma ClaimGives(c: Cache, call: Call, id: int)
    requires c.Valid() && Claims(c, call, id)
    ensures id in Step(c, call).entries.table && Step(c, call).entries.table[id] == Given(call, c.ttlMs, c.generation)
  {
    hide Insert, DropIfExpired;
  }

  /** An insertion for another id pushes `id` out, or leaves it alone. */
  lemma InsertEnds(c: Cache, x: int, e: Entry, now: int, id: int)
    requires c.Valid() && |c.entries.order| <= Eviction.Room(c.maxSize) && id in c.entries.table && x != id
    ensures |Behind(c, id, now)| + 1 >= Eviction.Room(c.maxSize) ==> id !in Insert(c, x, e, now).entries.table
    ensures c.Live(id, now) && |Behind(c, id, now)| + 1 < Eviction.Room(c.maxSize) ==>
      id in Insert(c, x, e, now).entries.table && Insert(c, x, e, now).entries.table[id] == c.entries.table[id]
  {
    hide Eviction.Behind, Eviction.Roomy;
    Eviction.RoomyValid(c.entries, c.maxSize, LivesAt(now));
    Eviction.RoomyCounts(c.entries, c.maxSize, id, LivesAt(now));
    Eviction.BehindFits(c.entries, id, LivesAt(now));
  }

  lemma DropEnds(c: Cache, x: int, now: int, id: int)
    requires c.Valid() && id in c.entries.table && x != id
    ensures var d := DropIfExpired(c, x, now);
      && d.Valid() && |d.entries.order| <= |c.entries.order|
      && id in d.entries.table && d.entries.table[id] == c.entries.table[id] && Behind(d, id, now) == Behind(c, id, now)
  {
    hide Eviction.Behind, JsMap.Delete;
    DropIfExpiredValid(c, x, now);
    if x in c.entries.table && !c.Live(x, now) {
      Eviction.DeleteDeadCounts(c.entries, x, id, LivesAt(now));
    }
  }

  lemma ReserveEnds(c: Cache, x: int, now: int, id: int)
    requires c.Valid() && |c.entries.order| <= Eviction.Room(c.maxSize) && id in c.entries.table && x != id
    ensures PushesOut(c, Call(now, ReserveOp(x)), id) ==> id !in Reserve(c, x, now).entries.table
    ensures c.Live(id, now) && !PushesOut(c, Call(now, ReserveOp(x)), id) ==>
      id in Reserve(c, x, now).entries.table && Reserve(c, x, now).entries.table[id] == c.entries.table[id]
  {
    hide Insert, DropIfExpired, Behind;
    DropEnds(c, x, now, id);
    InsertEnds(DropIfExpired(c, x, now), x, Entry("", 0, now + c.ttlMs, true, c.generation), now, id);
  }

  lemma FinalizeEnds(c: Cache, x: int, r: Response, g: int, now: int, id: int)
    requires c.Valid() && |c.entries.order| <= Eviction.Room(c.maxSize) && id in c.entries.table && x != id
    ensures PushesOut(c, Call(now, FinalizeOp(x, r, g)), id) ==> id !in Finalize(c, x, r, g, now).entries.table
    ensures c.Live(id, now) && !PushesOut(c, Call(now, FinalizeOp(x, r, g)), id) ==>
      id in Finalize(c, x, r, g, now).entries.table && Finalize(c, x, r, g, now).entries.table[id] == c.entries.table[id]
  {
    hide Insert, Eviction.Behind;
    InsertEnds(c.(mark := Raise(c.mark, x)), x, Entry(r.body, r.status, now + c.ttlMs, false, c.generation), now, id);
  }

  lemma DeleteLeaves(c: Cache, x: int, id: int)
    requires c.Valid() && id in c.entries.table && x != id
    ensures id in c.entries.Delete(x).table && c.entries.Delete(x).table[id] == c.entries.table[id]
  {
    DeleteValid(c.entries, x);
  }

  /** A call that ends nothing leaves a live entry as it is. */
  lemma StepLeaves(c: Cache, call: Call, id: int)
    requires c.Valid() && |c.entries.order| <= Eviction.Room(c.maxSize) && c.Live(id, call.now)
    requires !call.op.ResetOp? && !Claims(c, call, id) && !PushesOut(c, call, id)
    requires c.entries.table[id].processing ==> call.op != UnreserveOp(id, c.generation)
    ensures id in Step(c, call).entries.table && Step(c, call).entries.table[id] == c.entries.table[id]
  {
    hide Insert, DropIfExpired, PushesOut, JsMap.Delete, Eviction.Swept;
    match call.op
    case GetOp(x) => DropIfExpiredValid(c, x, call.now);
    case ReserveOp(x) => if x != id { ReserveEnds(c, x, call.now, id); }
    case UnreserveOp(x, g) => if x != id { DeleteLeaves(c, x, id); }
    case FinalizeOp(x, r, g) => if x != id { FinalizeEnds(c, x, r, g, call.now, id); }
    case ResetOp =>
    case SweepOp => Eviction.SweptValid(c.entries, LivesAt(call.now));
  }

  /** An entry that is still there was not ended. */
  lemma StepEnded(c: Cache, call: Call, id: int)
    requires c.Valid() && |c.entries.order| <= Eviction.Room(c.maxSize) && id in c.entries.table
    requires id in Step(c, call).entries.table && !Claims(c, call, id)
    ensures !call.op.ResetOp? && !PushesOut(c, call, id)
    ensures c.entries.table[id].processing ==> call.op != UnreserveOp(id, c.generation)
  {
    hide Insert, DropIfExpired, PushesOut, JsMap.Delete, Eviction.Swept;
    match call.op
    case GetOp(x) => OnlyInsertsPush(c, call, id);
    case ReserveOp(x) =>
      if x != id {
        ReserveEnds(c, x, call.now, id);
      } else {
        OnlyInsertsPush(c, call, id);
      }
    case UnreserveOp(x, g) =>
      DeleteValid(c.entries, x);
      OnlyInsertsPush(c, call, id);
    case FinalizeOp(x, r, g) =>
      if x != id {
        FinalizeEnds(c, x, r, g, call.now, id);
      } else {
        OnlyInsertsPush(c, call, id);
      }
    case ResetOp =>
    case SweepOp => OnlyInsertsPush(c, call, id);
  }

  lemma OnlyInsertsPush(c: Cache, call: Call, id: int)
    requires !Inserting(c, call)
    ensures !PushesOut(c, call, id)
  {
  }

  // ----- Runs -----

  lemma LastCall(ttlMs: int, maxSize: int, calls: seq<Call>)
    requires calls != []
    ensures After(ttlMs, maxSize, calls) == Step(After(ttlMs, maxSize, calls[..|calls| - 1]), calls[|calls| - 1])
  {
    hide Step;
  }

  lemma StandingBefore(ttlMs: int, maxSize: int, calls: seq<Call>, i: nat, id: int)
    requires calls != [] && i < |calls| - 1
    ensures Standing(ttlMs, maxSize, calls, i, id)
      <==> Standing(ttlMs, maxSize, calls[..|calls| - 1], i, id)
           && !Ends(ttlMs, maxSize, calls, |calls| - 1, id, calls[i].op.ReserveOp?)
  {
    hide Claims, Run, PushesOut;
    var before := calls[..|calls| - 1];
    assert before[..i] == calls[..i];
    forall j: nat | i < j < |before|
      ensures Ends(ttlMs, maxSize, before, j, id, before[i].op.ReserveOp?)
         <==> Ends(ttlMs, maxSize, calls, j, id, calls[i].op.ReserveOp?)
    {
      assert before[..j] == calls[..j];
    }
  }

  lemma StandingNow(ttlMs: int, maxSize: int, calls: seq<Call>, id: int)
    requires calls != []
    ensures Standing(ttlMs, maxSize, calls, |calls| - 1, id)
      <==> Claims(After(ttlMs, maxSize, calls[..|calls| - 1]), calls[|calls| - 1], id)
  {
    hide Claims, Run, Ends;
  }

  /** `id` has what call `i` gave it. */
  predicate Holds(ttlMs: int, maxSize: int, calls: seq<Call>, i: nat, id: int)
    requires i < |calls|
  {
    var c := After(ttlMs, maxSize, calls);
    id in c.entries.table && c.entries.table[id] == Given(calls[i], ttlMs, Resets(calls))
  }

  lemma ClaimHolds(ttlMs: int, maxSize: int, calls: seq<Call>, id: int)
    requires calls != [] && Claims(After(ttlMs, maxSize, calls[..|calls| - 1]), calls[|calls| - 1], id)
    ensures Holds(ttlMs, maxSize, calls, |calls| - 1, id)
  {
    hide Claims, Run, Step;
    var before := calls[..|calls| - 1];
    DedupBound.AfterFacts(ttlMs, maxSize, before);
    GenerationCountsResets(ttlMs, maxSize, before);
    LastCall(ttlMs, maxSize, calls);
    ClaimGives(After(ttlMs, maxSize, before), calls[|calls| - 1], id);
    ClaimIsNoReset(After(ttlMs, maxSize, before), calls[|calls| - 1], id);
  }

  lemma ClaimIsNoReset(c: Cache, call: Call, id: int)
    requires Claims(c, call, id)
    ensures !call.op.ResetOp?
  {
  }

  lemma LeavesHolding(ttlMs: int, maxSize: int, calls: seq<Call>, i: nat, id: int)
    requires calls != [] && i < |calls| - 1 && Holds(ttlMs, maxSize, calls[..|calls| - 1], i, id)
    requires !Ends(ttlMs, maxSize, calls, |calls| - 1, id, calls[i].op.ReserveOp?)
    requires Claims(After(ttlMs, maxSize, calls[..i]), calls[i], id)
    requires calls[|calls| - 1].now <= calls[i].now + ttlMs
    ensures Holds(ttlMs, maxSize, calls, i, id)
  {
    hide Run, Step, PushesOut;
    var before := calls[..|calls| - 1];
    var c := After(ttlMs, maxSize, before);
    DedupBound.AfterFacts(ttlMs, maxSize, before);
    GenerationCountsResets(ttlMs, maxSize, before);
    LastCall(ttlMs, maxSize, calls);
    StepLeaves(c, calls[|calls| - 1], id);
  }

  lemma KeptHolding(ttlMs: int, maxSize: int, calls: seq<Call>, i: nat, id: int)
    requires calls != [] && i < |calls| - 1 && Holds(ttlMs, maxSize, calls[..|calls| - 1], i, id)
    requires Claims(After(ttlMs, maxSize, calls[..i]), calls[i], id)
    requires !Claims(After(ttlMs, maxSize, calls[..|calls| - 1]), calls[|calls| - 1], id)
    requires id in After(ttlMs, maxSize, calls).entries.table
    ensures Holds(ttlMs, maxSize, calls, i, id) && !Ends(ttlMs, maxSize, calls, |calls| - 1, id, calls[i].op.ReserveOp?)
  {
    hide Run, Step, PushesOut;
    var before := calls[..|calls| - 1];
    var c := After(ttlMs, maxSize, before);
    DedupBound.AfterFacts(ttlMs, maxSize, before);
    GenerationCountsResets(ttlMs, maxSize, before);
    LastCall(ttlMs, maxSize, calls);
    EntryOrigin(c, calls[|calls| - 1], id);
    StepEnded(c, calls[|calls| - 1], id);
  }

  /** A claim that stands is what `id` has, as long as no call came after its lifetime. */
  lemma {:induction false} StandingHolds(ttlMs: int, maxSize: int, calls: seq<Call>, i: nat, id: int)
    requires Standing(ttlMs, maxSize, calls, i, id)
    requires forall j :: i < j < |calls| ==> calls[j].now <= calls[i].now + ttlMs
    ensures Holds(ttlMs, maxSize, calls, i, id)
    decreases |calls|
  {
    hide Run, Claims, Ends, Holds;
    if i == |calls| - 1 {
      ClaimHolds(ttlMs, maxSize, calls, id);
    } else {
      StandingBefore(ttlMs, maxSize, calls, i, id);
      StandingHolds(ttlMs, maxSize, calls[..|calls| - 1], i, id);
      LeavesHolding(ttlMs, maxSize, calls, i, id);
    }
  }

  /** Whatever `id` has, a claim that stands gave it. */
  lemma {:induction false} EntryHasClaim(ttlMs: int, maxSize: int, calls: seq<Call>, id: int) returns (i: nat)
    requires id in After(ttlMs, maxSize, calls).entries.table
    ensures Standing(ttlMs, maxSize, calls, i, id) && Holds(ttlMs, maxSize, calls, i, id)
    decreases |calls|
  {
    hide Run, Step, Claims, Ends, Holds, Standing;
    if calls == [] {
      NothingAtFirst(ttlMs, maxSize);
    }
    i := |calls| - 1;
    var c := After(ttlMs, maxSize, calls[..i]);
    if Claims(c, calls[i], id) {
      StandingNow(ttlMs, maxSize, calls, id);
      ClaimHolds(ttlMs, maxSize, calls, id);
    } else {
      DedupBound.AfterFacts(ttlMs, maxSize, calls[..i]);
      LastCall(ttlMs, maxSize, calls);
      EntryOrigin(c, calls[i], id);
      i := EntryHasClaim(ttlMs, maxSize, calls[..i], id);
      StandingFacts(ttlMs, maxSize, calls[..|calls| - 1], i, id);
      assert calls[..|calls| - 1][..i] == calls[..i];
      KeptHolding(ttlMs, maxSize, calls, i, id);
      StandingBefore(ttlMs, maxSize, calls, i, id);
    }
  }

  lemma StandingFacts(ttlMs: int, maxSize: int, calls: seq<Call>, i: nat, id: int)
    requires Standing(ttlMs, maxSize, calls, i, id)
    ensures i < |calls| && Claims(After(ttlMs, maxSize, calls[..i]), calls[i], id)
  {
  }

  lemma NothingAtFirst(ttlMs: int, maxSize: int)
    ensures After(ttlMs, maxSize, []).entries.table == map[]
  {
  }

  /** No call reads a later clock than `now`. */
  predicate NoneLater(calls: seq<Call>, now: int) {
    forall j :: 0 <= j < |calls| ==> calls[j].now <= now
  }

  /** `id` was claimed within the last `ttlMs`, and nothing has ended that since. */
  ghost predicate Held(ttlMs: int, maxSize: int, calls: seq<Call>, id: int, now: int) {
    exists i: nat :: Standing(ttlMs, maxSize, calls, i, id) && now <= calls[i].now + ttlMs
  }

  lemma HolderAnswers(ttlMs: int, maxSize: int, calls: seq<Call>, i: nat, id: int, now: int)
    requires i < |calls| && Holds(ttlMs, maxSize, calls, i, id)
    requires Claims(After(ttlMs, maxSize, calls[..i]), calls[i], id)
    ensures ReserveAnswer(After(ttlMs, maxSize, calls), id, now) == Duplicate <==> now <= calls[i].now + ttlMs
    ensures Lookup(After(ttlMs, maxSize, calls), id, now)
      == if now <= calls[i].now + ttlMs && calls[i].op.FinalizeOp? then Some(calls[i].op.response) else None
  {
    hide Run;
  }

  /**
    What reserve answers, from the calls and the reserves that were granted: "duplicate" if and only if the id
    was claimed within the last `ttlMs` and that claim stands: no reset, no later claim, no unreserve by a
    handler of the current generation while the id was unfinished, and no insertion that pushed it out. If not,
    "already processed" if and only if it or a later id was finalized since the last reset.
   */
  lemma ReserveFollowsTheCalls(ttlMs: int, maxSize: int, calls: seq<Call>, id: int, now: int)
    requires NoneLater(calls, now)
    ensures ReserveAnswer(After(ttlMs, maxSize, calls), id, now)
      == if Held(ttlMs, maxSize, calls, id, now) then Duplicate
         else if exists f :: f in Finalized(calls) && id <= f then AlreadyProcessed
         else Reserved
  {
    hide After, Ends, Holds, Claims;
    var c := After(ttlMs, maxSize, calls);
    ReserveAnswers(ttlMs, maxSize, calls, id, now);
    if Held(ttlMs, maxSize, calls, id, now) {
      var i: nat :| Standing(ttlMs, maxSize, calls, i, id) && now <= calls[i].now + ttlMs;
      StandingFacts(ttlMs, maxSize, calls, i, id);
      StandingHolds(ttlMs, maxSize, calls, i, id);
      HolderAnswers(ttlMs, maxSize, calls, i, id, now);
    }
    if ReserveAnswer(c, id, now) == Duplicate {
      var i := EntryHasClaim(ttlMs, maxSize, calls, id);
      StandingFacts(ttlMs, maxSize, calls, i, id);
      HolderAnswers(ttlMs, maxSize, calls, i, id, now);
    }
  }

  /** A get answers with a response if and only if a finalize with that response holds; an id still processing has none. */
  lemma GetFollowsTheCalls(ttlMs: int, maxSize: int, calls: seq<Call>, id: int, r: Response, now: int)
    requires NoneLater(calls, now)
    ensures Lookup(After(ttlMs, maxSize, calls), id, now) == Some(r)
      <==> exists i: nat :: Standing(ttlMs, maxSize, calls, i, id) && now <= calls[i].now + ttlMs
             && calls[i].op.FinalizeOp? && calls[i].op.response == r
  {
    hide After, Ends, Holds, Claims;
    forall i: nat | Standing(ttlMs, maxSize, calls, i, id) && now <= calls[i].now + ttlMs
      && calls[i].op.FinalizeOp? && calls[i].op.response == r
      ensures Lookup(After(ttlMs, maxSize, calls), id, now) == Some(r)
    {
      StandingFacts(ttlMs, maxSize, calls, i, id);
      StandingHolds(ttlMs, maxSize, calls, i, id);
      HolderAnswers(ttlMs, maxSize, calls, i, id, now);
    }
    if Lookup(After(ttlMs, maxSize, calls), id, now) == Some(r) {
      var i := EntryHasClaim(ttlMs, maxSize, calls, id);
      StandingFacts(ttlMs, maxSize, calls, i, id);
      HolderAnswers(ttlMs, maxSize, calls, i, id, now);
    }
  }

  // ----- Giving an id back -----

  /** Reserve `i` was granted, nothing has claimed `id` since, and call `k` gave it back in the current generation. */
  predicate GivenBack(ttlMs: int, maxSize: int, calls: seq<Call>, i: nat, k: nat, id: int) {
    && i < k < |calls|
    && calls[i].op == ReserveOp(id) && Claims(After(ttlMs, maxSize, calls[..i]), calls[i], id)
    && calls[k].op == UnreserveOp(id, Resets(calls[..k]))
    && forall j :: i < j < |calls| ==> !Claims(After(ttlMs, maxSize, calls[..j]), calls[j], id)
  }

  /**
    An id whose handler failed is free for the retry: once a granted reserve was given back and
    nothing has claimed the id since, the next reserve is granted, unless it or a later id was finalized.
   */
  lemma UnreservedIsFree(ttlMs: int, maxSize: int, calls: seq<Call>, i: nat, k: nat, id: int, now: int)
    requires GivenBack(ttlMs, maxSize, calls, i, k, id)
    ensures ReserveAnswer(After(ttlMs, maxSize, calls), id, now)
      == if exists f :: f in Finalized(calls) && id <= f then AlreadyProcessed else Reserved
  {
    hide After, Ends, Holds, Claims;
    ReserveAnswers(ttlMs, maxSize, calls, id, now);
    if ReserveAnswer(After(ttlMs, maxSize, calls), id, now) == Duplicate {
      var s := EntryHasClaim(ttlMs, maxSize, calls, id);
      NotGivenBack(ttlMs, maxSize, calls, i, k, id, s);
    }
  }

  lemma NotGivenBack(ttlMs: int, maxSize: int, calls: seq<Call>, i: nat, k: nat, id: int, s: nat)
    requires GivenBack(ttlMs, maxSize, calls, i, k, id)
    ensures !Standing(ttlMs, maxSize, calls, s, id)
  {
    hide Run, PushesOut;
    if s <= i {
      assert Ends(ttlMs, maxSize, calls, i, id, calls[s].op.ReserveOp?);
    }
    if s == i {
      assert Ends(ttlMs, maxSize, calls, k, id, calls[s].op.ReserveOp?);
    }
    if i < s < |calls| {
      assert !Claims(After(ttlMs, maxSize, calls[..s]), calls[s], id);
    }
  }

  /** An unreserve takes no response away, and changes no answer about other ids. */
  lemma UnreserveSparesOthers(ttlMs: int, maxSize: int, calls: seq<Call>, at: int, x: int, g: int, id: int, now: int)
    ensures var d := After(ttlMs, maxSize, calls + [Call(at, UnreserveOp(x, g))]);
      var c := After(ttlMs, maxSize, calls);
      && Lookup(d, id, now) == Lookup(c, id, now)
      && (x != id ==> ReserveAnswer(d, id, now) == ReserveAnswer(c, id, now))
  {
    hide Run, JsMap.Delete;
    var c := After(ttlMs, maxSize, calls);
    DedupBound.AfterFacts(ttlMs, maxSize, calls);
    assert (calls + [Call(at, UnreserveOp(x, g))])[..|calls|] == calls;
    LastCall(ttlMs, maxSize, calls + [Call(at, UnreserveOp(x, g))]);
    DeleteValid(c.entries, x);
  }

  // ----- Lapsed entries -----

  /** A get or reserve leaves no lapsed entry of its id, and a sweep none at all. */
  lemma LapsedAreDropped(ttlMs: int, maxSize: int, calls: seq<Call>, call: Call)
    ensures var d := After(ttlMs, maxSize, calls + [call]);
      && ((call.op.GetOp? || call.op.ReserveOp?) && ttlMs >= 0 && call.op.id in d.entries.table ==>
            call.now <= d.entries.table[call.op.id].expiresAt)
      && (call.op.SweepOp? ==> forall id :: id in d.entries.table ==> call.now <= d.entries.table[id].expiresAt)
  {
    hide Run, Insert, JsMap.Delete, Eviction.Swept;
    var c := After(ttlMs, maxSize, calls);
    DedupBound.AfterFacts(ttlMs, maxSize, calls);
    assert (calls + [call])[..|calls|] == calls;
    LastCall(ttlMs, maxSize, calls + [call]);
    Eviction.SweptValid(c.entries, LivesAt(call.now));
    if call.op.GetOp? || call.op.ReserveOp? {
      DropIfExpiredValid(c, call.op.id, call.now);
    }
  }
}
