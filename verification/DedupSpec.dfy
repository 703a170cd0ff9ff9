/**
  What the Telegram dedup cache computes, as functions on its state: one function for each operation,
  and runs of timed calls. `DedupCache` proves the class against these functions.
 */
module DedupSpec {
  import opened Options
  import opened JsMaps
  import Eviction

  datatype Entry = Entry(body: string, status: int, expiresAt: int, processing: bool, generation: int)

  datatype Answer = Reserved | Duplicate | AlreadyProcessed

  datatype Response = Response(body: string, status: int)

  /** The cache's fields; `mark` is the high-water mark, `None` standing for minus infinity. */
  datatype Cache = Cache(
    ttlMs: int,
    maxSize: int,
    entries: JsMap<int, Entry>,
    mark: Option<int>,
    generation: int)
  {
    ghost predicate Valid() {
      entries.Valid()
    }

    /** An entry for `id` is present and has not expired. */
    predicate Live(id: int, now: int) {
      id in entries.table && now <= entries.table[id].expiresAt
    }

    predicate AtOrBelowMark(id: int) {
      mark.Some? && id <= mark.value
    }
  }

  function New(ttlMs: int, maxSize: int): Cache {
    Cache(ttlMs, maxSize, Empty(), None, 0)
  }

  /** Everything but the entries is the same in both. */
  predicate SameFrame(c: Cache, d: Cache) {
    c.ttlMs == d.ttlMs && c.maxSize == d.maxSize && c.mark == d.mark && c.generation == d.generation
  }

  /** Which entries have not expired at `now`. */
  function LivesAt(now: int): Entry -> bool {
    (e: Entry) => now <= e.expiresAt
  }

  function SweepExpired(c: Cache, now: int): (d: Cache)
    ensures SameFrame(c, d)
  {
    c.(entries := Eviction.Swept(c.entries, LivesAt(now)))
  }

  /** Make room for one entry: sweep when full, then drop the oldest key when still full. */
  function MakeRoom(c: Cache, now: int): (d: Cache)
    ensures SameFrame(c, d)
  {
    c.(entries := Eviction.Roomy(c.entries, c.maxSize, LivesAt(now)))
  }

  function Insert(c: Cache, id: int, e: Entry, now: int): (d: Cache)
    ensures SameFrame(c, d) && id in d.entries.table && d.entries.table[id] == e
  {
    var roomy := MakeRoom(c, now);
    roomy.(entries := roomy.entries.Set(id, e))
  }

  function DropIfExpired(c: Cache, id: int, now: int): (d: Cache)
    ensures SameFrame(c, d)
  {
    if id in c.entries.table && !c.Live(id, now) then c.(entries := c.entries.Delete(id)) else c
  }

  function Lookup(c: Cache, id: int, now: int): Option<Response> {
    if c.Live(id, now) && !c.entries.table[id].processing
    then Some(Response(c.entries.table[id].body, c.entries.table[id].status))
    else None
  }

  function ReserveAnswer(c: Cache, id: int, now: int): Answer {
    if c.Live(id, now) then Duplicate
    else if c.AtOrBelowMark(id) then AlreadyProcessed
    else Reserved
  }

  function Reserve(c: Cache, id: int, now: int): Cache {
    match ReserveAnswer(c, id, now)
    case Duplicate => c
    case AlreadyProcessed => DropIfExpired(c, id, now)
    case Reserved => Insert(DropIfExpired(c, id, now), id, Entry("", 0, now + c.ttlMs, true, c.generation), now)
  }

  function Unreserve(c: Cache, id: int, reservedIn: int): Cache {
    if reservedIn == c.generation && id in c.entries.table && c.entries.table[id].processing
    then c.(entries := c.entries.Delete(id))
    else c
  }

  function Raise(mark: Option<int>, id: int): Option<int> {
    if mark.None? || id > mark.value then Some(id) else mark
  }

  function Finalize(c: Cache, id: int, r: Response, reservedIn: int, now: int): Cache {
    if reservedIn != c.generation then c
    else Insert(c.(mark := Raise(c.mark, id)), id,
                Entry(r.body, r.status, now + c.ttlMs, false, c.generation), now)
  }

  function Reset(c: Cache): Cache {
    c.(entries := Empty(), mark := None, generation := c.generation + 1)
  }

  /** The public operations, and the periodic sweep. */
  datatype Op =
    | GetOp(id: int)
    | ReserveOp(id: int)
    | UnreserveOp(id: int, reservedIn: int)
    | FinalizeOp(id: int, response: Response, reservedIn: int)
    | ResetOp
    | SweepOp

  /** An operation and the clock reading it runs at. */
  datatype Call = Call(now: int, op: Op)

  function Step(c: Cache, call: Call): Cache {
    match call.op
    case GetOp(id) => DropIfExpired(c, id, call.now)
    case ReserveOp(id) => Reserve(c, id, call.now)
    case UnreserveOp(id, g) => Unreserve(c, id, g)
    case FinalizeOp(id, r, g) => Finalize(c, id, r, g, call.now)
    case ResetOp => Reset(c)
    case SweepOp => SweepExpired(c, call.now)
  }

  function Run(c: Cache, calls: seq<Call>): Cache
    decreases |calls|
  {
    if calls == [] then c else Step(Run(c, calls[..|calls| - 1]), calls[|calls| - 1])
  }

  // ----- What the calls say by themselves, without looking at any state -----

  /** The generation the cache is in after `calls`: how often it was reset. */
  function Resets(calls: seq<Call>): nat
    decreases |calls|
  {
    if calls == [] then 0
    else Resets(calls[..|calls| - 1]) + if calls[|calls| - 1].op.ResetOp? then 1 else 0
  }

  /** A completion handed back by a handler that reserved in another generation than `generation`. */
  predicate Stale(call: Call, generation: int) {
    match call.op
    case UnreserveOp(_, g) => g != generation
    case FinalizeOp(_, _, g) => g != generation
    case _ => false
  }

  /** The ids finalized since the last reset by handlers of the current generation. */
  function Finalized(calls: seq<Call>): set<int>
    decreases |calls|
  {
    if calls == [] then {}
    else
      var before := calls[..|calls| - 1];
      var last := calls[|calls| - 1];
      if last.op.ResetOp? then {}
      else if last.op.FinalizeOp? && !Stale(last, Resets(before)) then Finalized(before) + {last.op.id}
      else Finalized(before)
  }

  /** `calls` without the completions that were stale when they arrived. */
  function EraseStale(calls: seq<Call>): seq<Call>
    decreases |calls|
  {
    if calls == [] then []
    else
      var before := calls[..|calls| - 1];
      var last := calls[|calls| - 1];
      EraseStale(before) + if Stale(last, Resets(before)) then [] else [last]
  }

  // ----- Every operation keeps the map well formed -----

  lemma MakeRoomValid(c: Cache, now: int)
    requires c.Valid()
    ensures MakeRoom(c, now).Valid()
    ensures forall id :: id in MakeRoom(c, now).entries.table ==>
      id in c.entries.table && MakeRoom(c, now).entries.table[id] == c.entries.table[id]
    ensures |MakeRoom(c, now).entries.order| < c.maxSize || MakeRoom(c, now).entries.order == []
            || |MakeRoom(c, now).entries.order| < |c.entries.order|
  {
    hide Eviction.Roomy;
    Eviction.RoomyValid(c.entries, c.maxSize, LivesAt(now));
  }

  lemma SweepValid(c: Cache, now: int)
    requires c.Valid()
    ensures SweepExpired(c, now).Valid()
    ensures forall id :: id in SweepExpired(c, now).entries.table ==>
      id in c.entries.table && SweepExpired(c, now).entries.table[id] == c.entries.table[id]
  {
    hide Eviction.Swept;
    Eviction.SweptValid(c.entries, LivesAt(now));
  }

  lemma DropIfExpiredValid(c: Cache, id: int, now: int)
    requires c.Valid()
    ensures DropIfExpired(c, id, now).Valid()
    ensures |DropIfExpired(c, id, now).entries.order| <= |c.entries.order|
    ensures DropIfExpired(c, id, now).entries.table ==
      if c.Live(id, now) then c.entries.table else c.entries.table - {id}
  {
    DeleteValid(c.entries, id);
    assert id !in c.entries.table ==> c.entries.table - {id} == c.entries.table;
  }

  lemma InsertValid(c: Cache, id: int, e: Entry, now: int)
    requires c.Valid()
    ensures Insert(c, id, e, now).Valid()
    ensures forall x :: x != id && x in Insert(c, id, e, now).entries.table ==>
      x in c.entries.table && Insert(c, id, e, now).entries.table[x] == c.entries.table[x]
  {
    hide MakeRoom;
    MakeRoomValid(c, now);
  }

  lemma StepValid(c: Cache, call: Call)
    requires c.Valid()
    ensures Step(c, call).Valid()
    ensures Step(c, call).ttlMs == c.ttlMs && Step(c, call).maxSize == c.maxSize
  {
    hide Insert, SweepExpired, DropIfExpired;
    match call.op
    case GetOp(id) => DropIfExpiredValid(c, id, call.now);
    case ReserveOp(id) =>
      DropIfExpiredValid(c, id, call.now);
      var e := Entry("", 0, call.now + c.ttlMs, true, c.generation);
      InsertValid(DropIfExpired(c, id, call.now), id, e, call.now);
    case UnreserveOp(id, g) => DeleteValid(c.entries, id);
    case FinalizeOp(id, r, g) =>
      var e := Entry(r.body, r.status, call.now + c.ttlMs, false, c.generation);
      InsertValid(c.(mark := Raise(c.mark, id)), id, e, call.now);
    case ResetOp =>
    case SweepOp => SweepValid(c, call.now);
  }

  lemma {:induction false} RunValid(c: Cache, calls: seq<Call>)
    requires c.Valid()
    ensures Run(c, calls).Valid()
    ensures Run(c, calls).ttlMs == c.ttlMs && Run(c, calls).maxSize == c.maxSize
    decreases |calls|
  {
    hide Step;
    if calls != [] {
      RunValid(c, calls[..|calls| - 1]);
      StepValid(Run(c, calls[..|calls| - 1]), calls[|calls| - 1]);
    }
  }

  lemma {:induction false} RunSplit(c: Cache, first: seq<Call>, rest: seq<Call>)
    ensures Run(c, first + rest) == Run(Run(c, first), rest)
    decreases |rest|
  {
    hide Step;
    if rest == [] {
      assert first + rest == first;
    } else {
      var n := |first + rest| - 1;
      assert (first + rest)[..n] == first + rest[..|rest| - 1];
      RunSplit(c, first, rest[..|rest| - 1]);
    }
  }
}
