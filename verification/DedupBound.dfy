/** How much pressure an entry of the dedup cache survives, exactly. */
module DedupBound {
  import opened Options
  import opened JsMaps
  import opened DedupSpec
  import opened DedupProofs
  import Eviction

  // ----- New ids push an entry out -----

  /** Reserves, all at time `at`, of the `n` ids after `base`. */
  function Flood(at: int, base: int, n: nat): seq<Call> {
    if n == 0 then [] else Flood(at, base, n - 1) + [Call(at, ReserveOp(base + n))]
  }

  /** `id` is live with exactly `n` live keys behind it, in a cache within its bounds that never saw an id above `base`. */
  ghost predicate Filling(c: Cache, id: int, at: int, n: nat, base: int) {
    && c.Valid() && |c.entries.order| <= Eviction.Room(c.maxSize) && c.ttlMs >= 0
    && c.Live(id, at) && |Behind(c, id, at)| == n
    && (forall x :: x in c.entries.table ==> x <= base)
    && (c.mark.Some? ==> c.mark.value <= base)
  }

  lemma FloodStep(c: Cache, id: int, at: int, n: nat, base: int)
    requires Filling(c, id, at, n, base)
    ensures ReserveAnswer(c, base + 1, at) == Reserved && id <= base
    ensures Reserve(c, base + 1, at).maxSize == c.maxSize && Reserve(c, base + 1, at).mark == c.mark
    ensures n + 1 < Eviction.Room(c.maxSize) ==> Filling(Reserve(c, base + 1, at), id, at, n + 1, base + 1)
    ensures n + 1 >= Eviction.Room(c.maxSize) ==> id !in Reserve(c, base + 1, at).entries.table
  {
    hide Eviction.Behind, Eviction.Roomy;
    var e := Entry("", 0, at + c.ttlMs, true, c.generation);
    assert Reserve(c, base + 1, at) == Insert(c, base + 1, e, at);
    Eviction.InsertedCounts(c.entries, c.maxSize, base + 1, e, id, LivesAt(at));
  }

  lemma FloodLast(c: Cache, at: int, base: int, n: nat)
    requires n > 0
    ensures var before := Run(c, Flood(at, base, n - 1));
      && Run(c, Flood(at, base, n)) == Reserve(before, base + n, at)
      && Inserts(c, Flood(at, base, n))
         == Inserts(c, Flood(at, base, n - 1)) + if ReserveAnswer(before, base + n, at) == Reserved then 1 else 0
  {
    hide Run, Inserts, Reserve, ReserveAnswer;
    var calls := Flood(at, base, n);
    assert calls[..|calls| - 1] == Flood(at, base, n - 1);
    RunStep(c, calls);
    InsertsStep(c, calls);
  }

  /** The flood reserves other ids only and releases none. */
  lemma FloodLastCalm(c: Cache, id: int, at: int, base: int, n: nat)
    requires n > 0 && id <= base
    requires Undisturbed(c, Flood(at, base, n - 1), id, at, at) && Unclaimed(c, Flood(at, base, n - 1), id)
    ensures Undisturbed(c, Flood(at, base, n), id, at, at) && Unclaimed(c, Flood(at, base, n), id)
  {
    hide Run, ReserveAnswer;
    var calls := Flood(at, base, n);
    assert calls[..|calls| - 1] == Flood(at, base, n - 1);
  }

  lemma NoFlood(c: Cache, id: int, at: int, base: int)
    ensures Flood(at, base, 0) == [] && Run(c, []) == c && Inserts(c, []) == 0
    ensures Undisturbed(c, [], id, at, at) && Unclaimed(c, [], id)
  {
  }

  lemma FillingFacts(c: Cache, id: int, at: int, n: nat, base: int)
    requires Filling(c, id, at, n, base)
    ensures c.Valid() && id in c.entries.table && id <= base
  {
  }

  lemma {:induction false} FloodFills(c: Cache, id: int, at: int, n: nat, base: int, j: nat)
    requires Filling(c, id, at, n, base) && n + j < Eviction.Room(c.maxSize)
    ensures var calls := Flood(at, base, j);
      && Filling(Run(c, calls), id, at, n + j, base + j)
      && Run(c, calls).maxSize == c.maxSize && Run(c, calls).mark == c.mark && Inserts(c, calls) == j
      && Undisturbed(c, calls, id, at, at) && Unclaimed(c, calls, id)
    decreases j
  {
    hide *;
    FillingFacts(c, id, at, n, base);
    if j == 0 {
      NoFlood(c, id, at, base);
    } else {
      FloodFills(c, id, at, n, base, j - 1);
      FloodLast(c, at, base, j);
      FloodLastCalm(c, id, at, base, j);
      FloodStep(Run(c, Flood(at, base, j - 1)), id, at, n + j - 1, base + j - 1);
    }
  }

  /** With one new id for every place that is left, the entry of `id` is pushed out within its lifetime. */
  lemma FloodPushesOut(c: Cache, id: int, at: int, n: nat, base: int)
    requires Filling(c, id, at, n, base) && n < Eviction.Room(c.maxSize)
    ensures var calls := Flood(at, base, Eviction.Room(c.maxSize) - n);
      && Undisturbed(c, calls, id, at, at) && Unclaimed(c, calls, id)
      && Inserts(c, calls) == Eviction.Room(c.maxSize) - n
      && id !in Run(c, calls).entries.table && Run(c, calls).mark == c.mark
  {
    hide Filling, Run, Flood, Inserts, Reserve, ReserveAnswer, Undisturbed, Unclaimed;
    var j := Eviction.Room(c.maxSize) - n;
    FillingFacts(c, id, at, n, base);
    FloodFills(c, id, at, n, base, j - 1);
    FloodLast(c, at, base, j);
    FloodLastCalm(c, id, at, base, j);
    FloodStep(Run(c, Flood(at, base, j - 1)), id, at, n + j - 1, base + j - 1);
  }

  lemma {:induction false} UpperBound(ids: seq<int>) returns (base: int)
    ensures forall x :: x in ids ==> x <= base
  {
    base := 0;
    if ids != [] {
      base := UpperBound(ids[1..]);
      assert ids == [ids[0]] + ids[1..];
      if ids[0] > base {
        base := ids[0];
      }
    }
  }

  /** Whatever the state, there are ids it never saw. */
  lemma FillingFrom(c: Cache, id: int, at: int) returns (base: int)
    requires c.Valid() && |c.entries.order| <= Eviction.Room(c.maxSize) && c.ttlMs >= 0 && c.Live(id, at)
    ensures Filling(c, id, at, |Behind(c, id, at)|, base) && |Behind(c, id, at)| < Eviction.Room(c.maxSize)
  {
    hide Eviction.Behind;
    base := UpperBound(c.entries.order);
    if c.mark.Some? && c.mark.value > base {
      base := c.mark.value;
    }
    forall x | x in c.entries.table ensures x <= base {
      assert x in c.entries.order;
    }
    Eviction.BehindFits(c.entries, id, LivesAt(at));
  }

  // ----- Reservations -----

  /** From `c`, every continuation within the lifetime of `id` that does not release it and inserts fewer than `b` says "duplicate". */
  ghost predicate HonouredUpTo(c: Cache, id: int, at: int, b: nat) {
    forall calls: seq<Call>, now: int ::
      now <= at + c.ttlMs && Undisturbed(c, calls, id, at, now) && Inserts(c, calls) < b ==>
        ReserveAnswer(Run(c, calls), id, now) == Duplicate
  }

  lemma AfterFacts(ttlMs: int, maxSize: int, before: seq<Call>)
    ensures var c := After(ttlMs, maxSize, before);
      c.Valid() && |c.entries.order| <= Eviction.Room(maxSize) && c.ttlMs == ttlMs && c.maxSize == maxSize
  {
    RunValid(New(ttlMs, maxSize), before);
    SizeBounded(ttlMs, maxSize, before);
  }

  /** The bound on a reservation is exact, after any run: as many insertions as the cache has room for are too many. */
  lemma SurvivalBoundIsExact(ttlMs: int, maxSize: int, before: seq<Call>, id: int, at: int, b: nat)
    requires ttlMs >= 0 && ReserveAnswer(After(ttlMs, maxSize, before), id, at) == Reserved
    ensures HonouredUpTo(Reserve(After(ttlMs, maxSize, before), id, at), id, at, b) <==> b <= Eviction.Room(maxSize)
  {
    hide After, Reserve, Undisturbed, Inserts, Run, Behind, ReserveAnswer;
    AfterFacts(ttlMs, maxSize, before);
    var c := After(ttlMs, maxSize, before);
    var c1 := Reserve(c, id, at);
    ReservedIsLast(c, id, at);
    if b <= Eviction.Room(maxSize) {
      forall calls: seq<Call>, now: int | now <= at + ttlMs && Undisturbed(c1, calls, id, at, now) && Inserts(c1, calls) < b
        ensures ReserveAnswer(Run(c1, calls), id, now) == Duplicate
      {
        ReservationSurvives(c, id, at, calls, now);
      }
    } else {
      var calls := ReservedTwice(ttlMs, maxSize, before, id, at);
      assert Inserts(c1, calls) < b && ReserveAnswer(Run(c1, calls), id, at) != Duplicate;
    }
  }

  /** Then the id is handed out a second time within the lifetime of its reservation. */
  lemma ReservedTwice(ttlMs: int, maxSize: int, before: seq<Call>, id: int, at: int) returns (calls: seq<Call>)
    requires ttlMs >= 0 && ReserveAnswer(After(ttlMs, maxSize, before), id, at) == Reserved
    ensures var c1 := Reserve(After(ttlMs, maxSize, before), id, at);
      && Undisturbed(c1, calls, id, at, at) && Inserts(c1, calls) == Eviction.Room(maxSize)
      && ReserveAnswer(Run(c1, calls), id, at) == Reserved
  {
    hide After, Reserve, Undisturbed, Inserts, Run, Behind, Filling, Flood;
    AfterFacts(ttlMs, maxSize, before);
    var c := After(ttlMs, maxSize, before);
    ReservedIsLast(c, id, at);
    ReserveSize(c, id, at);
    ReservedState(c, id, at);
    var base := FillingFrom(Reserve(c, id, at), id, at);
    FloodPushesOut(Reserve(c, id, at), id, at, 0, base);
    calls := Flood(at, base, Eviction.Room(maxSize));
  }

  lemma ReservedState(c: Cache, id: int, at: int)
    requires c.Valid() && ReserveAnswer(c, id, at) == Reserved && c.ttlMs >= 0
    ensures Reserve(c, id, at).Valid() && Reserve(c, id, at).Live(id, at) && Reserve(c, id, at).mark == c.mark
  {
    hide Insert, DropIfExpired;
    StepValid(c, Call(at, ReserveOp(id)));
  }

  // ----- Responses -----

  /**
    From `c`, every continuation within the lifetime of `id` that neither claims nor releases it and inserts
    fewer than `b` is answered with `r`.
   */
  ghost predicate AnsweredUpTo(c: Cache, id: int, r: Response, at: int, b: nat) {
    forall calls: seq<Call>, now: int ::
      now <= at + c.ttlMs && Undisturbed(c, calls, id, at, now) && Unclaimed(c, calls, id) && Inserts(c, calls) < b ==>
        Lookup(Run(c, calls), id, now) == Some(r)
  }

  /** The cache after any run and a finalize of any id by a handler of the current generation. */
  function AfterFinalize(ttlMs: int, maxSize: int, before: seq<Call>, id: int, r: Response, at: int): Cache {
    Finalize(After(ttlMs, maxSize, before), id, r, After(ttlMs, maxSize, before).generation, at)
  }

  /**
    The bound on a stored response is exact: after any run and a finalize of any id, the response is returned
    through every continuation within its lifetime that neither claims nor releases the id and inserts fewer
    than `b`, if and only if `b` and the live keys standing behind the id fit into the cache together.
   */
  lemma ResponseBoundIsExact(ttlMs: int, maxSize: int, before: seq<Call>, id: int, r: Response, at: int, b: nat)
    requires ttlMs >= 0
    ensures var f := AfterFinalize(ttlMs, maxSize, before, id, r, at);
      AnsweredUpTo(f, id, r, at, b) <==> |Behind(f, id, at)| + b <= Eviction.Room(maxSize)
  {
    hide After, Finalize, Undisturbed, Unclaimed, Inserts, Run, Behind, Lookup, Guarded, Flood, Filling;
    AfterFacts(ttlMs, maxSize, before);
    var c := After(ttlMs, maxSize, before);
    var f := Finalize(c, id, r, c.generation, at);
    FinalizedEntry(c, id, r, at);
    FinalizeSize(c, id, r, c.generation, at);
    if |Behind(f, id, at)| + b <= Eviction.Room(maxSize) {
      forall calls: seq<Call>, now: int | now <= at + ttlMs
        && Undisturbed(f, calls, id, at, now) && Unclaimed(f, calls, id) && Inserts(f, calls) < b
        ensures Lookup(Run(f, calls), id, now) == Some(r)
      {
        ResponseReplayed(c, id, r, at, calls, now);
      }
    } else {
      var base := FillingFrom(f, id, at);
      FloodPushesOut(f, id, at, |Behind(f, id, at)|, base);
      var calls := Flood(at, base, Eviction.Room(maxSize) - |Behind(f, id, at)|);
      AbsentIsNotFound(Run(f, calls), id, at);
      assert Inserts(f, calls) < b && Lookup(Run(f, calls), id, at) != Some(r);
    }
  }

  lemma AbsentIsNotFound(c: Cache, id: int, now: int)
    requires id !in c.entries.table
    ensures Lookup(c, id, now) == None
  {
  }

  /** The entry of `id` is there, and making room at `at` does not take it. */
  predicate Stays(c: Cache, id: int, at: int) {
    id in c.entries.table && Eviction.Stays(c.entries, c.maxSize, id, LivesAt(at))
  }

  /**
    Where a finalize puts an id: an entry that stays when room is made keeps its place, with the same live keys
    behind it; otherwise the id goes to the end, with nothing behind it.
   */
  lemma FinalizePlace(c: Cache, id: int, r: Response, at: int)
    requires c.Valid() && |c.entries.order| <= Eviction.Room(c.maxSize)
    ensures Behind(Finalize(c, id, r, c.generation, at), id, at) == if Stays(c, id, at) then Behind(c, id, at) else []
  {
    hide Eviction.Behind, Eviction.Roomy, Eviction.Stays, JsMap.Set;
    Eviction.InsertedPlace(c.entries, c.maxSize, id, Entry(r.body, r.status, at + c.ttlMs, false, c.generation), LivesAt(at));
  }

  /** The same bound, told before the finalize: the live keys behind an id count exactly if its entry stays. */
  lemma ResponseBoundByPlace(ttlMs: int, maxSize: int, before: seq<Call>, id: int, r: Response, at: int, b: nat)
    requires ttlMs >= 0
    ensures var c := After(ttlMs, maxSize, before);
      AnsweredUpTo(AfterFinalize(ttlMs, maxSize, before, id, r, at), id, r, at, b)
      <==> (if Stays(c, id, at) then |Behind(c, id, at)| else 0) + b <= Eviction.Room(maxSize)
  {
    hide After, Finalize, Behind, AnsweredUpTo, Stays;
    ResponseBoundIsExact(ttlMs, maxSize, before, id, r, at, b);
    AfterFacts(ttlMs, maxSize, before);
    FinalizePlace(After(ttlMs, maxSize, before), id, r, at);
  }

  // ----- A response that is lost early -----

  /** Ids 1 and 2 are reserved in a cache for three. */
  function TwoReserved(ttlMs: int): Cache {
    Reserve(Reserve(New(ttlMs, 3), 1, 0), 2, 0)
  }

  lemma TwoReservedState(ttlMs: int)
    requires ttlMs >= 0
    ensures var c := TwoReserved(ttlMs);
      && c.Valid() && c.entries.order == [1, 2] && c.mark == None && c.maxSize == 3 && c.ttlMs == ttlMs
      && c.generation == 0 && c.entries.table == map[1 := Entry("", 0, ttlMs, true, 0), 2 := Entry("", 0, ttlMs, true, 0)]
  {
  }

  lemma OneFinalizedState(ttlMs: int, r: Response)
    requires ttlMs >= 0
    ensures var f := Finalize(TwoReserved(ttlMs), 1, r, 0, 0);
      && Filling(f, 1, 0, 1, 2) && f.maxSize == 3 && f.ttlMs == ttlMs
  {
    hide TwoReserved, Eviction.Behind, JsMap.Restrict;
    TwoReservedState(ttlMs);
    var c := TwoReserved(ttlMs);
    FinalizePlace(c, 1, r, 0);
    var f := Finalize(c, 1, r, 0, 0);
    assert f.entries.order == [1, 2];
    TwoBehind(c.entries);
  }

  lemma TwoBehind(m: JsMap<int, Entry>)
    requires m.order == [1, 2] && 1 in m.table && 2 in m.table && m.table[2].expiresAt >= 0
    ensures Eviction.Behind(m, 1, LivesAt(0)) == [2]
  {
    assert m.order[1..] == [2];
    KeepAll([2], Eviction.LiveIn(m, LivesAt(0)));
  }

  /**
    In a cache for three, reserve 1, reserve 2, finalize 1, reserve 3, reserve 4: the response of 1 is gone,
    though only two calls inserted after it was stored.
   */
  lemma FinalizedResponseIsLost(ttlMs: int, r: Response)
    requires ttlMs >= 0
    ensures var f := Finalize(TwoReserved(ttlMs), 1, r, 0, 0);
      var calls := [Call(0, ReserveOp(3)), Call(0, ReserveOp(4))];
      && Undisturbed(f, calls, 1, 0, 0) && Unclaimed(f, calls, 1) && Inserts(f, calls) == 2
      && Lookup(Run(f, calls), 1, 0) == None
  {
    hide Run, Undisturbed, Unclaimed, Inserts, Finalize, TwoReserved, Filling;
    OneFinalizedState(ttlMs, r);
    FloodPushesOut(Finalize(TwoReserved(ttlMs), 1, r, 0, 0), 1, 0, 1, 2);
    assert Flood(0, 2, 2) == [Call(0, ReserveOp(3)), Call(0, ReserveOp(4))];
    AbsentIsNotFound(Run(Finalize(TwoReserved(ttlMs), 1, r, 0, 0), Flood(0, 2, 2)), 1, 0);
  }
}
