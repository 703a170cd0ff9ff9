/** What every run of the dedup cache guarantees. */
module DedupProofs {
  import opened Options
  import opened JsMaps
  import opened DedupSpec
  import Eviction

  /** The cache after `calls`, started empty. */
  function After(ttlMs: int, maxSize: int, calls: seq<Call>): Cache {
    Run(New(ttlMs, maxSize), calls)
  }

  // ----- The high-water mark and the answers of reserve, read off the history -----

  /** What each operation does to the mark and the generation. */
  lemma StepFields(c: Cache, call: Call)
    ensures Step(c, call).generation == c.generation + if call.op.ResetOp? then 1 else 0
    ensures Step(c, call).mark ==
      if call.op.ResetOp? then None
      else if call.op.FinalizeOp? && call.op.reservedIn == c.generation then Raise(c.mark, call.op.id)
      else c.mark
  {
    hide SweepExpired, MakeRoom, Insert, DropIfExpired;
  }

  lemma {:induction false} GenerationCountsResets(ttlMs: int, maxSize: int, calls: seq<Call>)
    ensures After(ttlMs, maxSize, calls).generation == Resets(calls)
    decreases |calls|
  {
    hide Step;
    if calls != [] {
      var before := calls[..|calls| - 1];
      GenerationCountsResets(ttlMs, maxSize, before);
      StepFields(After(ttlMs, maxSize, before), calls[|calls| - 1]);
    }
  }

  /** The mark is the maximum of the ids finalized in the current generation. */
  lemma {:induction false} MarkIsMaximum(ttlMs: int, maxSize: int, calls: seq<Call>)
    ensures After(ttlMs, maxSize, calls).mark.None? <==> Finalized(calls) == {}
    ensures After(ttlMs, maxSize, calls).mark.Some? ==>
      && After(ttlMs, maxSize, calls).mark.value in Finalized(calls)
      && forall f :: f in Finalized(calls) ==> f <= After(ttlMs, maxSize, calls).mark.value
    decreases |calls|
  {
    hide Step;
    if calls != [] {
      var before := calls[..|calls| - 1];
      MarkIsMaximum(ttlMs, maxSize, before);
      GenerationCountsResets(ttlMs, maxSize, before);
      StepFields(After(ttlMs, maxSize, before), calls[|calls| - 1]);
    }
  }

  /** The three answers of reserve, each with exactly the history that produces it. */
  lemma ReserveAnswers(ttlMs: int, maxSize: int, calls: seq<Call>, id: int, now: int)
    ensures var c := After(ttlMs, maxSize, calls);
      var overtaken := exists f :: f in Finalized(calls) && id <= f;
      match ReserveAnswer(c, id, now)
      case Duplicate => c.Live(id, now)
      case AlreadyProcessed => !c.Live(id, now) && overtaken
      case Reserved => !c.Live(id, now) && !overtaken
  {
    MarkIsMaximum(ttlMs, maxSize, calls);
  }

  /** Whatever expired or was evicted, nothing at or below a finalized id is let in again before a reset. */
  lemma NoReplay(ttlMs: int, maxSize: int, calls: seq<Call>, id: int, finalized: int, now: int)
    requires finalized in Finalized(calls) && id <= finalized
    ensures ReserveAnswer(After(ttlMs, maxSize, calls), id, now) != Reserved
  {
    MarkIsMaximum(ttlMs, maxSize, calls);
  }

  /** `call` gives `id` a fresh entry when it runs in `c`. */
  predicate Claims(c: Cache, call: Call, id: int) {
    match call.op
    case ReserveOp(x) => x == id && ReserveAnswer(c, id, call.now) == Reserved
    case FinalizeOp(x, _, g) => x == id && g == c.generation
    case _ => false
  }

  lemma EntryOrigin(c: Cache, call: Call, id: int)
    requires c.Valid() && id in Step(c, call).entries.table
    ensures if Claims(c, call, id)
      then Step(c, call).entries.table[id].expiresAt == call.now + c.ttlMs
      else !call.op.ResetOp? && id in c.entries.table && Step(c, call).entries.table[id] == c.entries.table[id]
  {
    hide Insert, SweepExpired, DropIfExpired;
    match call.op
    case GetOp(x) => DropIfExpiredValid(c, x, call.now);
    case ReserveOp(x) =>
      DropIfExpiredValid(c, x, call.now);
      var e := Entry("", 0, call.now + c.ttlMs, true, c.generation);
      InsertValid(DropIfExpired(c, x, call.now), x, e, call.now);
    case UnreserveOp(x, g) => DeleteValid(c.entries, x);
    case FinalizeOp(x, r, g) =>
      var e := Entry(r.body, r.status, call.now + c.ttlMs, false, c.generation);
      InsertValid(c.(mark := Raise(c.mark, x)), x, e, call.now);
    case ResetOp =>
    case SweepOp => SweepValid(c, call.now);
  }

  /** A claim of `id` at position `i`, not followed by a reset, whose entry lapses at `expiresAt`. */
  predicate ClaimAt(ttlMs: int, maxSize: int, calls: seq<Call>, i: nat, id: int, expiresAt: int) {
    && i < |calls|
    && Claims(After(ttlMs, maxSize, calls[..i]), calls[i], id)
    && calls[i].now + ttlMs == expiresAt
    && forall j :: i < j < |calls| ==> !calls[j].op.ResetOp?
  }

  /** A "duplicate" answer always goes back to a claim in this generation at most `ttlMs` ago. */
  lemma {:induction false} DuplicateHasRecentClaim(ttlMs: int, maxSize: int, calls: seq<Call>, id: int)
    requires id in After(ttlMs, maxSize, calls).entries.table
    ensures exists i: nat ::
      ClaimAt(ttlMs, maxSize, calls, i, id, After(ttlMs, maxSize, calls).entries.table[id].expiresAt)
    decreases |calls|
  {
    if calls != [] {
      hide Step, Claims, ClaimAt, Run;
      var n := |calls| - 1;
      var c := After(ttlMs, maxSize, calls[..n]);
      RunValid(New(ttlMs, maxSize), calls[..n]);
      assert After(ttlMs, maxSize, calls) == Step(c, calls[n]) by { RunStep(New(ttlMs, maxSize), calls); }
      EntryOrigin(c, calls[n], id);
      var expiresAt := After(ttlMs, maxSize, calls).entries.table[id].expiresAt;
      if Claims(c, calls[n], id) {
        assert ClaimAt(ttlMs, maxSize, calls, n, id, expiresAt) by { ClaimedNow(ttlMs, maxSize, calls, id); }
      } else {
        DuplicateHasRecentClaim(ttlMs, maxSize, calls[..n], id);
        var i: nat :| ClaimAt(ttlMs, maxSize, calls[..n], i, id, expiresAt);
        ClaimStays(ttlMs, maxSize, calls, i, id, expiresAt);
      }
    }
  }

  lemma RunStep(c: Cache, calls: seq<Call>)
    requires calls != []
    ensures Run(c, calls) == Step(Run(c, calls[..|calls| - 1]), calls[|calls| - 1])
  {
    hide Step;
  }

  lemma ClaimedNow(ttlMs: int, maxSize: int, calls: seq<Call>, id: int)
    requires calls != [] && Claims(After(ttlMs, maxSize, calls[..|calls| - 1]), calls[|calls| - 1], id)
    ensures ClaimAt(ttlMs, maxSize, calls, |calls| - 1, id, calls[|calls| - 1].now + ttlMs)
  {
    hide Claims, Run;
  }

  lemma ClaimStays(ttlMs: int, maxSize: int, calls: seq<Call>, i: nat, id: int, expiresAt: int)
    requires calls != [] && ClaimAt(ttlMs, maxSize, calls[..|calls| - 1], i, id, expiresAt)
    requires !calls[|calls| - 1].op.ResetOp?
    ensures ClaimAt(ttlMs, maxSize, calls, i, id, expiresAt)
  {
    hide Claims, Run;
    assert calls[..|calls| - 1][..i] == calls[..i];
  }

  lemma InsertSize(c: Cache, id: int, e: Entry, now: int)
    requires c.Valid() && |c.entries.order| <= Eviction.Room(c.maxSize)
    ensures |Insert(c, id, e, now).entries.order| <= Eviction.Room(c.maxSize)
  {
    hide Eviction.Roomy;
    Eviction.RoomyValid(c.entries, c.maxSize, LivesAt(now));
  }

  lemma ReserveSize(c: Cache, id: int, now: int)
    requires c.Valid() && |c.entries.order| <= Eviction.Room(c.maxSize)
    ensures |Reserve(c, id, now).entries.order| <= Eviction.Room(c.maxSize)
  {
    hide Insert;
    DropIfExpiredValid(c, id, now);
    InsertSize(DropIfExpired(c, id, now), id, Entry("", 0, now + c.ttlMs, true, c.generation), now);
  }

  lemma FinalizeSize(c: Cache, id: int, r: Response, g: int, now: int)
    requires c.Valid() && |c.entries.order| <= Eviction.Room(c.maxSize)
    ensures |Finalize(c, id, r, g, now).entries.order| <= Eviction.Room(c.maxSize)
  {
    hide Insert;
    InsertSize(c.(mark := Raise(c.mark, id)), id, Entry(r.body, r.status, now + c.ttlMs, false, c.generation), now);
  }

  lemma StepSize(c: Cache, call: Call)
    requires c.Valid() && |c.entries.order| <= Eviction.Room(c.maxSize)
    ensures |Step(c, call).entries.order| <= Eviction.Room(c.maxSize)
  {
    hide Insert, Reserve, DropIfExpired, Finalize, Eviction.Swept, JsMap.Delete, JsMap.Valid;
    match call.op
    case GetOp(id) => DropIfExpiredValid(c, id, call.now);
    case ReserveOp(id) => ReserveSize(c, id, call.now);
    case UnreserveOp(id, g) => DeleteValid(c.entries, id);
    case FinalizeOp(id, r, g) => FinalizeSize(c, id, r, g, call.now);
    case ResetOp =>
    case SweepOp => Eviction.SweptValid(c.entries, LivesAt(call.now));
  }

  /** The cache never holds more entries than its capacity (one, when the capacity is not positive). */
  lemma {:induction false} SizeBounded(ttlMs: int, maxSize: int, calls: seq<Call>)
    ensures |After(ttlMs, maxSize, calls).entries.order| <= Eviction.Room(maxSize)
    decreases |calls|
  {
    hide Step;
    if calls != [] {
      var before := calls[..|calls| - 1];
      SizeBounded(ttlMs, maxSize, before);
      RunValid(New(ttlMs, maxSize), before);
      StepSize(After(ttlMs, maxSize, before), calls[|calls| - 1]);
    }
  }

  // ----- A live reservation survives pressure -----

  /** `call` adds an entry: a reserve that succeeds, or a finalize in the current generation. */
  predicate Inserting(c: Cache, call: Call) {
    match call.op
    case ReserveOp(id) => ReserveAnswer(c, id, call.now) == Reserved
    case FinalizeOp(_, _, g) => g == c.generation
    case _ => false
  }

  function Inserts(c: Cache, calls: seq<Call>): nat
    decreases |calls|
  {
    if calls == [] then 0
    else
      var before := calls[..|calls| - 1];
      Inserts(c, before) + if Inserting(Run(c, before), calls[|calls| - 1]) then 1 else 0
  }

  /** `call` takes the entry of `id` away on purpose: a reset, or an unreserve of the unfinished reservation. */
  predicate Releases(c: Cache, call: Call, id: int) {
    match call.op
    case ResetOp => true
    case UnreserveOp(x, g) =>
      x == id && g == c.generation && id in c.entries.table && c.entries.table[id].processing
    case _ => false
  }

  /** All calls run between `from` and `limit` and none releases `id`. */
  predicate Undisturbed(c: Cache, calls: seq<Call>, id: int, from: int, limit: int)
    decreases |calls|
  {
    calls == [] ||
    var before := calls[..|calls| - 1];
    var last := calls[|calls| - 1];
    && Undisturbed(c, before, id, from, limit)
    && from <= last.now <= limit
    && !Releases(Run(c, before), last, id)
  }

  /** The keys behind `id` in the eviction order whose entries have not expired at `from`. */
  function Behind(c: Cache, id: int, from: int): seq<int> {
    Eviction.Behind(c.entries, id, LivesAt(from))
  }

  /** `id` has an entry good until `limit`, and at most `n` keys live at `from` stand behind it. */
  ghost predicate Guarded(c: Cache, id: int, from: int, limit: int, n: int) {
    Eviction.Guarded(c.entries, id, LivesAt(from), n) && limit <= c.entries.table[id].expiresAt
  }

  lemma GuardedIsLive(c: Cache, id: int, from: int, limit: int, n: int, now: int)
    requires Guarded(c, id, from, limit, n) && now <= limit
    ensures c.Valid() && id in c.entries.table && c.Live(id, now)
  {
  }

  /** A bound for later and for more. */
  lemma GuardedToo(c: Cache, id: int, from: int, limit: int, n: int, limit': int, n': int)
    requires Guarded(c, id, from, limit, n) && n <= n' && id in c.entries.table && limit' <= c.entries.table[id].expiresAt
    ensures Guarded(c, id, from, limit', n')
  {
  }

  lemma SweepGuards(c: Cache, now: int, id: int, from: int, limit: int, n: int)
    requires Guarded(c, id, from, limit, n) && now <= limit
    ensures id in SweepExpired(c, now).entries.table && id in c.entries.table
    ensures Guarded(SweepExpired(c, now), id, from, limit, n)
    ensures SweepExpired(c, now).entries.table[id] == c.entries.table[id]
  {
    hide Eviction.Guarded, Eviction.Swept;
    Eviction.GuardedIsThere(c.entries, id, LivesAt(from), n);
    Eviction.SweptGuards(c.entries, LivesAt(now), id, LivesAt(from), n);
    Eviction.GuardedIsThere(Eviction.Swept(c.entries, LivesAt(now)), id, LivesAt(from), n);
  }

  lemma DeleteGuards(c: Cache, x: int, id: int, from: int, limit: int, n: int)
    requires Guarded(c, id, from, limit, n) && x != id
    ensures id in c.entries.Delete(x).table && id in c.entries.table
    ensures Guarded(c.(entries := c.entries.Delete(x)), id, from, limit, n)
    ensures c.entries.Delete(x).table[id] == c.entries.table[id]
  {
    hide Eviction.Guarded, JsMap.Delete;
    Eviction.GuardedIsThere(c.entries, id, LivesAt(from), n);
    Eviction.DeleteGuards(c.entries, x, id, LivesAt(from), n);
    Eviction.GuardedIsThere(c.entries.Delete(x), id, LivesAt(from), n);
  }

  /** Another key's insertion puts at most one key behind `id`. */
  lemma InsertGuards(c: Cache, x: int, e: Entry, now: int, id: int, from: int, limit: int, n: int)
    requires Guarded(c, id, from, limit, n) && from <= now <= limit && n + 1 < c.maxSize
    requires x == id ==> limit <= e.expiresAt
    ensures Guarded(Insert(c, x, e, now), id, from, limit, if x == id then n else n + 1)
    ensures id in c.entries.table && id in Insert(c, x, e, now).entries.table
    ensures x != id ==> Insert(c, x, e, now).entries.table[id] == c.entries.table[id]
  {
    hide Eviction.Guarded, Eviction.Roomy;
    Eviction.GuardedIsThere(c.entries, id, LivesAt(from), n);
    Eviction.RoomyGuards(c.entries, c.maxSize, LivesAt(now), id, LivesAt(from), n);
    var roomy := Eviction.Roomy(c.entries, c.maxSize, LivesAt(now));
    Eviction.SetGuards(roomy, x, e, id, LivesAt(from), n);
    Eviction.GuardedIsThere(roomy, id, LivesAt(from), n);
    Eviction.GuardedIsThere(roomy.Set(x, e), id, LivesAt(from), if x == id then n else n + 1);
  }

  lemma DropGuards(c: Cache, x: int, now: int, id: int, from: int, limit: int, n: int)
    requires Guarded(c, id, from, limit, n) && now <= limit
    ensures id in DropIfExpired(c, x, now).entries.table && id in c.entries.table
    ensures Guarded(DropIfExpired(c, x, now), id, from, limit, n)
    ensures DropIfExpired(c, x, now).entries.table[id] == c.entries.table[id]
  {
    hide Guarded, JsMap.Delete;
    GuardedIsLive(c, id, from, limit, n, now);
    if x != id {
      DeleteGuards(c, x, id, from, limit, n);
    }
  }

  lemma ReserveGuards(c: Cache, x: int, now: int, id: int, from: int, limit: int, n: int)
    requires Guarded(c, id, from, limit, n) && from <= now <= limit
    requires ReserveAnswer(c, x, now) == Reserved ==> n + 1 < c.maxSize
    ensures Guarded(Reserve(c, x, now), id, from, limit, if ReserveAnswer(c, x, now) == Reserved then n + 1 else n)
    ensures id in c.entries.table && id in Reserve(c, x, now).entries.table
    ensures Reserve(c, x, now).entries.table[id] == c.entries.table[id]
  {
    hide Insert, DropIfExpired, Guarded;
    GuardedIsLive(c, id, from, limit, n, now);
    DropGuards(c, x, now, id, from, limit, n);
    if ReserveAnswer(c, x, now) == Reserved {
      InsertGuards(DropIfExpired(c, x, now), x, Entry("", 0, now + c.ttlMs, true, c.generation), now, id, from, limit, n);
    }
  }

  lemma FinalizeGuards(c: Cache, x: int, r: Response, now: int, id: int, from: int, limit: int, n: int)
    requires Guarded(c, id, from, limit, n) && from <= now <= limit <= now + c.ttlMs && n + 1 < c.maxSize
    ensures var f := Finalize(c, x, r, c.generation, now);
      && Guarded(f, id, from, limit, if x == id then n else n + 1)
      && f.generation == c.generation && f.ttlMs == c.ttlMs && f.maxSize == c.maxSize
    ensures id in c.entries.table && id in Finalize(c, x, r, c.generation, now).entries.table
    ensures Finalize(c, x, r, c.generation, now).entries.table[id]
         == if x == id then Entry(r.body, r.status, now + c.ttlMs, false, c.generation) else c.entries.table[id]
  {
    hide Insert, Eviction.Guarded;
    InsertGuards(c.(mark := Raise(c.mark, x)), x, Entry(r.body, r.status, now + c.ttlMs, false, c.generation), now, id, from, limit, n);
  }

  lemma StaleFinalize(c: Cache, x: int, r: Response, g: int, now: int)
    requires g != c.generation
    ensures Finalize(c, x, r, g, now) == c
  {
  }

  lemma StepGuards(c: Cache, call: Call, id: int, from: int, limit: int, n: int)
    requires Guarded(c, id, from, limit, n)
    requires from <= call.now <= limit <= from + c.ttlMs
    requires !Releases(c, call, id)
    requires Inserting(c, call) ==> n + 1 < c.maxSize
    ensures Guarded(Step(c, call), id, from, limit, if Inserting(c, call) then n + 1 else n)
    ensures id in c.entries.table && id in Step(c, call).entries.table
    ensures !Claims(c, call, id) ==> Step(c, call).entries.table[id] == c.entries.table[id]
  {
    hide Insert, Reserve, SweepExpired, Guarded, DropIfExpired, Finalize, JsMap.Delete;
    GuardedIsLive(c, id, from, limit, n, call.now);
    match call.op
    case GetOp(x) => DropGuards(c, x, call.now, id, from, limit, n);
    case ReserveOp(x) => ReserveGuards(c, x, call.now, id, from, limit, n);
    case UnreserveOp(x, g) => if x != id { DeleteGuards(c, x, id, from, limit, n); }
    case FinalizeOp(x, r, g) =>
      if g == c.generation {
        FinalizeGuards(c, x, r, call.now, id, from, limit, n);
        GuardedIsLive(Step(c, call), id, from, limit, if x == id then n else n + 1, limit);
        GuardedToo(Step(c, call), id, from, limit, if x == id then n else n + 1, limit, n + 1);
      } else {
        StaleFinalize(c, x, r, g, call.now);
      }
    case ResetOp =>
    case SweepOp => SweepGuards(c, call.now, id, from, limit, n);
  }

  lemma {:induction false} RunGuards(c: Cache, calls: seq<Call>, id: int, from: int, limit: int, n: nat)
    requires Guarded(c, id, from, limit, n)
    requires limit <= from + c.ttlMs
    requires Undisturbed(c, calls, id, from, limit)
    requires n + Inserts(c, calls) < Eviction.Room(c.maxSize)
    ensures Guarded(Run(c, calls), id, from, limit, n + Inserts(c, calls))
    decreases |calls|
  {
    hide Step, Guarded, Inserting, Releases;
    if calls != [] {
      var before := calls[..|calls| - 1];
      RunGuards(c, before, id, from, limit, n);
      assert c.Valid() by { GuardedIsLive(c, id, from, limit, n, limit); }
      RunValid(c, before);
      StepGuards(Run(c, before), calls[|calls| - 1], id, from, limit, n + Inserts(c, before));
    }
  }

  /** A freshly inserted key stands last. */
  lemma InsertedIsLast(c: Cache, id: int, e: Entry, now: int)
    requires c.Valid() && id !in c.entries.table
    ensures Guarded(Insert(c, id, e, now), id, now, e.expiresAt, 0) && Behind(Insert(c, id, e, now), id, now) == []
  {
    hide Eviction.Roomy, Eviction.Behind;
    Eviction.RoomyValid(c.entries, c.maxSize, LivesAt(now));
    var roomy := Eviction.Roomy(c.entries, c.maxSize, LivesAt(now));
    SetValid(roomy, id, e);
    Eviction.SetLast(roomy, id, e, LivesAt(now));
  }

  lemma ReservedIsLast(c: Cache, id: int, at: int)
    requires c.Valid() && ReserveAnswer(c, id, at) == Reserved
    ensures Guarded(Reserve(c, id, at), id, at, at + c.ttlMs, 0) && Behind(Reserve(c, id, at), id, at) == []
    ensures Reserve(c, id, at).ttlMs == c.ttlMs && Reserve(c, id, at).maxSize == c.maxSize
    ensures id in Reserve(c, id, at).entries.table && Reserve(c, id, at).entries.table[id].expiresAt == at + c.ttlMs
  {
    hide Insert, DropIfExpired, Guarded, Behind;
    DropIfExpiredValid(c, id, at);
    InsertedIsLast(DropIfExpired(c, id, at), id, Entry("", 0, at + c.ttlMs, true, c.generation), at);
  }

  /**
    A reservation is honoured for its whole lifetime: while at most `ttlMs` has passed, nothing released it
    and fewer than `maxSize` later calls inserted, another reserve of the id is told "duplicate".
   */
  lemma ReservationSurvives(c: Cache, id: int, at: int, calls: seq<Call>, now: int)
    requires c.Valid() && ReserveAnswer(c, id, at) == Reserved
    requires now <= at + c.ttlMs
    requires Undisturbed(Reserve(c, id, at), calls, id, at, now)
    requires Inserts(Reserve(c, id, at), calls) < Eviction.Room(c.maxSize)
    ensures ReserveAnswer(Run(Reserve(c, id, at), calls), id, now) == Duplicate
  {
    hide Step, Reserve, Guarded, Behind;
    var c1 := Reserve(c, id, at);
    ReservedIsLast(c, id, at);
    GuardedToo(c1, id, at, at + c.ttlMs, 0, now, 0);
    RunGuards(c1, calls, id, at, now, 0);
    GuardedIsLive(Run(c1, calls), id, at, now, Inserts(c1, calls), now);
  }

  /** No call in `calls` gives `id` a new entry. */
  predicate Unclaimed(c: Cache, calls: seq<Call>, id: int)
    decreases |calls|
  {
    calls == [] ||
    var before := calls[..|calls| - 1];
    Unclaimed(c, before, id) && !Claims(Run(c, before), calls[|calls| - 1], id)
  }

  lemma {:induction false} RunKeepsEntry(c: Cache, calls: seq<Call>, id: int, from: int, limit: int, n: nat)
    requires Guarded(c, id, from, limit, n)
    requires limit <= from + c.ttlMs
    requires Undisturbed(c, calls, id, from, limit)
    requires n + Inserts(c, calls) < Eviction.Room(c.maxSize)
    requires Unclaimed(c, calls, id)
    ensures id in c.entries.table && id in Run(c, calls).entries.table
    ensures Run(c, calls).entries.table[id] == c.entries.table[id]
    decreases |calls|
  {
    hide Step, Guarded, Inserting, Releases, Claims;
    GuardedIsLive(c, id, from, limit, n, limit);
    if calls != [] {
      var before := calls[..|calls| - 1];
      RunKeepsEntry(c, before, id, from, limit, n);
      RunGuards(c, before, id, from, limit, n);
      RunValid(c, before);
      StepGuards(Run(c, before), calls[|calls| - 1], id, from, limit, n + Inserts(c, before));
    }
  }

  /** The response stored for `id` is what a get returns while nothing pushes its entry out or replaces it. */
  lemma StoredResponseStays(c: Cache, id: int, r: Response, at: int, calls: seq<Call>, now: int, n: nat)
    requires Guarded(c, id, at, at + c.ttlMs, n)
    requires id in c.entries.table && c.entries.table[id] == Entry(r.body, r.status, at + c.ttlMs, false, c.generation)
    requires now <= at + c.ttlMs
    requires Undisturbed(c, calls, id, at, now) && Unclaimed(c, calls, id) && n + Inserts(c, calls) < Eviction.Room(c.maxSize)
    ensures Lookup(Run(c, calls), id, now) == Some(r)
  {
    hide Step, Insert, Guarded, Run;
    GuardedToo(c, id, at, at + c.ttlMs, n, now, n);
    RunKeepsEntry(c, calls, id, at, now, n);
  }

  /** A finalized id is there with its response, whatever it had before. */
  lemma FinalizedEntry(c: Cache, id: int, r: Response, at: int)
    requires c.Valid()
    ensures var f := Finalize(c, id, r, c.generation, at);
      && f.Valid() && f.ttlMs == c.ttlMs && f.maxSize == c.maxSize && f.generation == c.generation
      && id in f.entries.table && f.entries.table[id] == Entry(r.body, r.status, at + c.ttlMs, false, c.generation)
      && Guarded(f, id, at, at + c.ttlMs, |Behind(f, id, at)|)
  {
    hide Insert, Eviction.Behind;
    var raised := c.(mark := Raise(c.mark, id));
    InsertValid(raised, id, Entry(r.body, r.status, at + c.ttlMs, false, c.generation), at);
  }

  /**
    A retry is answered with the stored response: once any id is finalized, a later get within `ttlMs` returns
    that response, while the live keys that stand behind the id after the finalize and the later calls that
    insert are together fewer than the cache has room for.
   */
  lemma ResponseReplayed(c: Cache, id: int, r: Response, at: int, calls: seq<Call>, now: int)
    requires c.Valid() && now <= at + c.ttlMs
    requires var f := Finalize(c, id, r, c.generation, at);
      && Undisturbed(f, calls, id, at, now)
      && Unclaimed(f, calls, id)
      && |Behind(f, id, at)| + Inserts(f, calls) < Eviction.Room(c.maxSize)
    ensures Lookup(Run(Finalize(c, id, r, c.generation, at), calls), id, now) == Some(r)
  {
    hide Step, Insert, Guarded, Behind, Finalize, Undisturbed, Unclaimed, Inserts;
    FinalizedEntry(c, id, r, at);
    var f := Finalize(c, id, r, c.generation, at);
    StoredResponseStays(f, id, r, at, calls, now, |Behind(f, id, at)|);
  }

  /**
    The whole life of an update: reserved at `at`, finalized at `done` within `ttlMs`, asked for at `now` within
    `ttlMs` of that. Its entry keeps the place of the reservation, so the bound counts from there: the response
    is returned if fewer than `maxSize` other calls inserted since the reservation.
   */
  lemma ReservedResponseReplayed(
      c: Cache, id: int, at: int, during: seq<Call>, r: Response, done: int, calls: seq<Call>, now: int)
    requires c.Valid() && ReserveAnswer(c, id, at) == Reserved
    requires at <= done <= at + c.ttlMs && now <= done + c.ttlMs
    requires var c1 := Reserve(c, id, at);
      var c2 := Run(c1, during);
      var c3 := Finalize(c2, id, r, c2.generation, done);
      && Undisturbed(c1, during, id, at, done)
      && Undisturbed(c3, calls, id, done, now) && Unclaimed(c3, calls, id)
      && Inserts(c1, during) + Inserts(c3, calls) < Eviction.Room(c.maxSize)
    ensures var c2 := Run(Reserve(c, id, at), during);
      Lookup(Run(Finalize(c2, id, r, c2.generation, done), calls), id, now) == Some(r)
  {
    hide Step, Insert, Reserve, Finalize, Undisturbed, Unclaimed, Guarded, Inserts, Behind, Run;
    var c1 := Reserve(c, id, at);
    var c2 := Run(c1, during);
    ReservedIsLast(c, id, at);
    GuardedToo(c1, id, at, at + c.ttlMs, 0, done, 0);
    RunGuards(c1, during, id, at, done, 0);
    GuardedIsLive(c1, id, at, done, 0, done);
    GuardedIsLive(c2, id, at, done, Inserts(c1, during), done);
    RunValid(c1, during);
    FinalizeKeepsCount(c2, id, r, done, at, Inserts(c1, during));
    ResponseReplayed(c2, id, r, done, calls, now);
  }

  /** Finalizing an id puts nothing behind it: those behind it afterwards, live at that time, were there before. */
  lemma FinalizeKeepsCount(c: Cache, id: int, r: Response, done: int, from: int, n: nat)
    requires Guarded(c, id, from, done, n) && from <= done
    ensures |Behind(Finalize(c, id, r, c.generation, done), id, done)| <= n
  {
    hide Eviction.Guarded, Eviction.Roomy, Eviction.Behind;
    Eviction.GuardedIsThere(c.entries, id, LivesAt(from), n);
    Eviction.InsertedBehind(c.entries, c.maxSize, id, Entry(r.body, r.status, done + c.ttlMs, false, c.generation),
                            LivesAt(done), LivesAt(from), n);
  }

  lemma InsertsStep(c: Cache, calls: seq<Call>)
    requires calls != []
    ensures var before := calls[..|calls| - 1];
      Inserts(c, calls) == Inserts(c, before) + if Inserting(Run(c, before), calls[|calls| - 1]) then 1 else 0
  {
    hide Run, Inserting;
  }
}
