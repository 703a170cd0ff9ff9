/** The string-keyed dedup cache: a TTL set of seen keys beside the set of keys being processed. */
module StringDedup {
  import opened JsMaps
  import Eviction

  /** `entries` gives each seen key the time its entry lapses; `processing` holds the reserved keys. */
  datatype Cache = Cache(ttlMs: int, maxSize: int, entries: JsMap<string, int>, processing: set<string>)
  {
    predicate Live(key: string, now: int) {
      key in entries.table && now <= entries.table[key]
    }

    /** What `has` answers. */
    predicate Knows(key: string, now: int) {
      key in processing || Live(key, now)
    }
  }

  function New(ttlMs: int, maxSize: int): Cache {
    Cache(ttlMs, maxSize, Empty(), {})
  }

  /** Which entries have not lapsed at `now`. */
  function LivesAt(now: int): int -> bool {
    (expiresAt: int) => now <= expiresAt
  }

  function Sweep(c: Cache, now: int): Cache {
    c.(entries := Eviction.Swept(c.entries, LivesAt(now)))
  }

  function MakeRoom(c: Cache, now: int): Cache {
    c.(entries := Eviction.Roomy(c.entries, c.maxSize, LivesAt(now)))
  }

  function Mark(c: Cache, key: string, now: int): Cache {
    var roomy := MakeRoom(c.(processing := c.processing - {key}), now);
    roomy.(entries := roomy.entries.Set(key, now + c.ttlMs))
  }

  /** A key that is not being processed loses its lapsed entry when it is asked for. */
  function Ask(c: Cache, key: string, now: int): Cache {
    if key in c.processing || key !in c.entries.table || c.Live(key, now) then c
    else c.(entries := c.entries.Delete(key))
  }

  datatype Op = HasOp(key: string) | SeenOp(key: string) | ReserveOp(key: string) | UnreserveOp(key: string)
    | MarkOp(key: string) | SweepOp

  datatype Call = Call(now: int, op: Op)

  function Step(c: Cache, call: Call): Cache {
    match call.op
    case HasOp(key) => Ask(c, key, call.now)
    case SeenOp(key) => if c.Knows(key, call.now) then c else Mark(Ask(c, key, call.now), key, call.now)
    case ReserveOp(key) =>
      if c.Knows(key, call.now) then c
      else
        var asked := Ask(c, key, call.now);
        asked.(processing := asked.processing + {key})
    case UnreserveOp(key) => c.(processing := c.processing - {key})
    case MarkOp(key) => Mark(c, key, call.now)
    case SweepOp => Sweep(c, call.now)
  }

  function Run(c: Cache, calls: seq<Call>): Cache
    decreases |calls|
  {
    if calls == [] then c else Step(Run(c, calls[..|calls| - 1]), calls[|calls| - 1])
  }

  function After(ttlMs: int, maxSize: int, calls: seq<Call>): Cache {
    Run(New(ttlMs, maxSize), calls)
  }

  // ----- One handler at a time -----

  /** `call` claims `key` for processing: a reserve that answers true. */
  predicate Claims(c: Cache, call: Call, key: string) {
    call.op == ReserveOp(key) && !c.Knows(key, call.now)
  }

  /** `call` ends the processing of `key`. */
  predicate Ends(call: Call, key: string) {
    call.op == UnreserveOp(key) || call.op == MarkOp(key)
  }

  lemma StepProcessing(c: Cache, call: Call, key: string)
    ensures key in Step(c, call).processing <==> Claims(c, call, key) || (key in c.processing && !Ends(call, key))
  {
    hide MakeRoom, JsMap.Delete, JsMap.Restrict, JsMap.Set;
    forall d: Cache ensures MakeRoom(d, call.now).processing == d.processing { RoomProcessing(d, call.now); }
  }

  lemma RoomProcessing(c: Cache, now: int)
    ensures MakeRoom(c, now).processing == c.processing
  {
  }

  /** The last call about the processing of `key` in the run is a claim. */
  predicate Held(ttlMs: int, maxSize: int, calls: seq<Call>, key: string)
    decreases |calls|
  {
    calls != [] &&
    var before, last := calls[..|calls| - 1], calls[|calls| - 1];
    Claims(After(ttlMs, maxSize, before), last, key) || (!Ends(last, key) && Held(ttlMs, maxSize, before, key))
  }

  lemma {:induction false} ProcessingIsHeld(ttlMs: int, maxSize: int, calls: seq<Call>, key: string)
    ensures key in After(ttlMs, maxSize, calls).processing <==> Held(ttlMs, maxSize, calls, key)
    decreases |calls|
  {
    if calls != [] {
      hide Step, Claims, Ends;
      ProcessingIsHeld(ttlMs, maxSize, calls[..|calls| - 1], key);
      StepProcessing(After(ttlMs, maxSize, calls[..|calls| - 1]), calls[|calls| - 1], key);
    }
  }

  lemma {:induction false} HeldSince(ttlMs: int, maxSize: int, calls: seq<Call>, i: nat, key: string)
    requires i < |calls| && Claims(After(ttlMs, maxSize, calls[..i]), calls[i], key)
    requires forall m :: i < m < |calls| ==> !Ends(calls[m], key)
    ensures Held(ttlMs, maxSize, calls, key)
    decreases |calls|
  {
    hide Claims, Ends;
    var n := |calls| - 1;
    if i < n {
      assert calls[..n][..i] == calls[..i];
      HeldSince(ttlMs, maxSize, calls[..n], i, key);
    }
  }

  /**
    Between two handlers that are told to process the same key, the first one unreserved it or marked it,
    however long it took.
   */
  lemma OneHandlerAtATime(ttlMs: int, maxSize: int, calls: seq<Call>, i: nat, j: nat, key: string)
    requires i < j < |calls|
    requires Claims(After(ttlMs, maxSize, calls[..i]), calls[i], key)
    requires Claims(After(ttlMs, maxSize, calls[..j]), calls[j], key)
    ensures exists m :: i < m < j && Ends(calls[m], key)
  {
    if forall m :: i < m < j ==> !Ends(calls[m], key) {
      assert calls[..j][..i] == calls[..i];
      HeldSince(ttlMs, maxSize, calls[..j], i, key);
      ProcessingIsHeld(ttlMs, maxSize, calls[..j], key);
    }
  }

  // ----- A mark survives pressure -----

  /** `call` adds an entry. */
  predicate Marks(c: Cache, call: Call) {
    call.op.MarkOp? || (call.op.SeenOp? && !c.Knows(call.op.key, call.now))
  }

  function MarkCount(c: Cache, calls: seq<Call>): nat
    decreases |calls|
  {
    if calls == [] then 0
    else MarkCount(c, calls[..|calls| - 1]) + if Marks(Run(c, calls[..|calls| - 1]), calls[|calls| - 1]) then 1 else 0
  }

  predicate Within(calls: seq<Call>, from: int, limit: int) {
    forall i :: 0 <= i < |calls| ==> from <= calls[i].now <= limit
  }

  /** The keys behind `key` in the eviction order whose entries have not lapsed at `from`. */
  function Behind(c: Cache, key: string, from: int): seq<string> {
    Eviction.Behind(c.entries, key, LivesAt(from))
  }

  /** `key` has an entry good until `limit`, and at most `n` keys live at `from` stand behind it. */
  ghost predicate Guarded(c: Cache, key: string, from: int, limit: int, n: int) {
    Eviction.Guarded(c.entries, key, LivesAt(from), n) && limit <= c.entries.table[key]
  }

  lemma SweepGuards(c: Cache, now: int, key: string, from: int, limit: int, n: int)
    requires Guarded(c, key, from, limit, n) && now <= limit
    ensures Guarded(Sweep(c, now), key, from, limit, n)
  {
    hide Eviction.Guarded, Eviction.Swept;
    Eviction.GuardedIsThere(c.entries, key, LivesAt(from), n);
    Eviction.SweptGuards(c.entries, LivesAt(now), key, LivesAt(from), n);
  }

  lemma MarkGuards(c: Cache, x: string, now: int, key: string, from: int, limit: int, n: int)
    requires Guarded(c, key, from, limit, n) && from <= now <= limit <= now + c.ttlMs && n + 1 < c.maxSize
    ensures Guarded(Mark(c, x, now), key, from, limit, n + 1)
  {
    hide Eviction.Guarded, Eviction.Roomy, Eviction.Behind;
    Eviction.GuardedIsThere(c.entries, key, LivesAt(from), n);
    Eviction.RoomyGuards(c.entries, c.maxSize, LivesAt(now), key, LivesAt(from), n);
    var roomy := Eviction.Roomy(c.entries, c.maxSize, LivesAt(now));
    Eviction.SetGuards(roomy, x, now + c.ttlMs, key, LivesAt(from), n);
    GuardedMore(roomy.Set(x, now + c.ttlMs), key, from, if x == key then n else n + 1, n + 1);
    Eviction.GuardedIsThere(roomy.Set(x, now + c.ttlMs), key, LivesAt(from), n + 1);
  }

  lemma GuardedMore(m: JsMap<string, int>, key: string, from: int, n: int, n': int)
    requires Eviction.Guarded(m, key, LivesAt(from), n) && n <= n'
    ensures Eviction.Guarded(m, key, LivesAt(from), n')
  {
  }

  lemma AskGuards(c: Cache, x: string, now: int, key: string, from: int, limit: int, n: int)
    requires Guarded(c, key, from, limit, n) && now <= limit
    ensures Guarded(Ask(c, x, now), key, from, limit, n)
  {
    hide Eviction.Guarded, JsMap.Delete;
    Eviction.GuardedIsThere(c.entries, key, LivesAt(from), n);
    if x != key {
      Eviction.DeleteGuards(c.entries, x, key, LivesAt(from), n);
    }
  }

  lemma FrameKept(c: Cache, call: Call)
    ensures Step(c, call).ttlMs == c.ttlMs && Step(c, call).maxSize == c.maxSize
  {
    hide JsMap.Delete, JsMap.Restrict, JsMap.Set;
  }

  lemma StepGuards(c: Cache, call: Call, key: string, from: int, limit: int, n: int)
    requires Guarded(c, key, from, limit, n) && from <= call.now <= limit <= call.now + c.ttlMs
    requires Marks(c, call) ==> n + 1 < c.maxSize
    ensures Guarded(Step(c, call), key, from, limit, if Marks(c, call) then n + 1 else n)
  {
    hide Mark, Sweep, Eviction.Guarded, Ask;
    match call.op
    case HasOp(x) => AskGuards(c, x, call.now, key, from, limit, n);
    case SeenOp(x) =>
      AskGuards(c, x, call.now, key, from, limit, n);
      if !c.Knows(x, call.now) {
        AskFrame(c, x, call.now);
        MarkGuards(Ask(c, x, call.now), x, call.now, key, from, limit, n);
      }
    case ReserveOp(x) => AskGuards(c, x, call.now, key, from, limit, n);
    case UnreserveOp(_) =>
    case MarkOp(x) => MarkGuards(c, x, call.now, key, from, limit, n);
    case SweepOp => SweepGuards(c, call.now, key, from, limit, n);
  }

  lemma AskFrame(c: Cache, x: string, now: int)
    ensures Ask(c, x, now) == c.(entries := Ask(c, x, now).entries)
  {
  }

  lemma {:induction false} RunGuards(c: Cache, calls: seq<Call>, key: string, from: int, limit: int, n: nat)
    requires Guarded(c, key, from, limit, n) && limit <= from + c.ttlMs
    requires Within(calls, from, limit) && n + MarkCount(c, calls) < Eviction.Room(c.maxSize)
    ensures Guarded(Run(c, calls), key, from, limit, n + MarkCount(c, calls))
    ensures Run(c, calls).ttlMs == c.ttlMs && Run(c, calls).maxSize == c.maxSize
    decreases |calls|
  {
    hide Run, MarkCount, Guarded, Within, Step, Marks;
    if calls == [] {
      RunNone(c);
    } else {
      var before, last := calls[..|calls| - 1], calls[|calls| - 1];
      RunLast(c, calls);
      WithinFront(calls, from, limit);
      RunGuards(c, before, key, from, limit, n);
      FrameKept(Run(c, before), last);
      StepGuards(Run(c, before), last, key, from, limit, n + MarkCount(c, before));
    }
  }

  lemma RunNone(c: Cache)
    ensures Run(c, []) == c && MarkCount(c, []) == 0
  {
  }

  lemma RunLast(c: Cache, calls: seq<Call>)
    requires calls != []
    ensures var before, last := calls[..|calls| - 1], calls[|calls| - 1];
      && Run(c, calls) == Step(Run(c, before), last)
      && MarkCount(c, calls) == MarkCount(c, before) + if Marks(Run(c, before), last) then 1 else 0
  {
    hide Step, Marks;
  }

  lemma WithinFront(calls: seq<Call>, from: int, limit: int)
    requires calls != [] && Within(calls, from, limit)
    ensures Within(calls[..|calls| - 1], from, limit) && from <= calls[|calls| - 1].now <= limit
  {
  }

  /** A marked key is there for `ttlMs`, and nothing that `mark` keeps is broken. */
  lemma MarkValid(c: Cache, key: string, at: int)
    requires c.entries.Valid()
    ensures var d := Mark(c, key, at);
      && d.entries.Valid() && key in d.entries.table && d.entries.table[key] == at + c.ttlMs
      && d.ttlMs == c.ttlMs && d.maxSize == c.maxSize && key !in d.processing
      && (|c.entries.order| <= Eviction.Room(c.maxSize) ==> |d.entries.order| <= Eviction.Room(c.maxSize))
  {
    hide Eviction.Roomy;
    Eviction.RoomyValid(c.entries, c.maxSize, LivesAt(at));
    SetValid(Eviction.Roomy(c.entries, c.maxSize, LivesAt(at)), key, at + c.ttlMs);
  }

  /**
    A marked key is known for its whole lifetime, whether it had an entry before or not: while at most `ttlMs`
    has passed, and the live keys that stand behind it after its mark and the later calls that add an entry are
    together fewer than the cache has room for, nobody is told to process it again.
   */
  lemma MarkSurvives(c: Cache, key: string, at: int, calls: seq<Call>, now: int)
    requires c.entries.Valid()
    requires now <= at + c.ttlMs && Within(calls, at, now)
    requires |Behind(Mark(c, key, at), key, at)| + MarkCount(Mark(c, key, at), calls) < Eviction.Room(c.maxSize)
    ensures Run(Mark(c, key, at), calls).Live(key, now)
    ensures Run(Mark(c, key, at), calls).Knows(key, now)
  {
    hide Mark, Run, MarkCount, Eviction.Behind;
    MarkValid(c, key, at);
    RunGuards(Mark(c, key, at), calls, key, at, now, |Behind(Mark(c, key, at), key, at)|);
  }

  /** The entry of `key` is there, and making room at `at` does not take it. */
  predicate Stays(c: Cache, key: string, at: int) {
    key in c.entries.table && Eviction.Stays(c.entries, c.maxSize, key, LivesAt(at))
  }

  /**
    Where a mark puts a key. A key whose entry stays when room is made keeps its place, with the same live keys
    behind it; a new key, one whose entry lapsed in a full cache, and one that stood first among as many live
    keys as the cache has room for go to the end, with nothing behind them.
   */
  lemma MarkPlace(c: Cache, key: string, at: int)
    requires c.entries.Valid() && |c.entries.order| <= Eviction.Room(c.maxSize)
    ensures Behind(Mark(c, key, at), key, at) == if Stays(c, key, at) then Behind(c, key, at) else []
  {
    hide Eviction.Behind, Eviction.Roomy, Eviction.Stays, JsMap.Set;
    Eviction.InsertedPlace(c.entries, c.maxSize, key, at + c.ttlMs, LivesAt(at));
  }

  /** A key that had no entry goes to the end: no key stands behind it. */
  lemma NewKeyIsLast(c: Cache, key: string, at: int)
    requires c.entries.Valid() && key !in c.entries.table
    ensures Behind(Mark(c, key, at), key, at) == []
  {
    hide Eviction.Behind, Eviction.Roomy;
    Eviction.RoomyValid(c.entries, c.maxSize, LivesAt(at));
    Eviction.SetLast(Eviction.Roomy(c.entries, c.maxSize, LivesAt(at)), key, at + c.ttlMs, LivesAt(at));
  }

  // ----- The bound is exact -----

  lemma StepSize(c: Cache, call: Call)
    requires c.entries.Valid() && |c.entries.order| <= Eviction.Room(c.maxSize)
    ensures Step(c, call).entries.Valid() && |Step(c, call).entries.order| <= Eviction.Room(c.maxSize)
    ensures Step(c, call).ttlMs == c.ttlMs && Step(c, call).maxSize == c.maxSize
  {
    hide Mark, JsMap.Delete, JsMap.Restrict;
    FrameKept(c, call);
    hide Eviction.Swept;
    Eviction.SweptValid(c.entries, LivesAt(call.now));
    if !call.op.SweepOp? {
      DeleteValid(c.entries, call.op.key);
      MarkValid(c, call.op.key, call.now);
      MarkValid(Ask(c, call.op.key, call.now), call.op.key, call.now);
    }
  }

  lemma {:induction false} SizeBounded(ttlMs: int, maxSize: int, calls: seq<Call>)
    ensures var c := After(ttlMs, maxSize, calls);
      c.entries.Valid() && |c.entries.order| <= Eviction.Room(maxSize) && c.ttlMs == ttlMs && c.maxSize == maxSize
    decreases |calls|
  {
    if calls != [] {
      hide Step;
      SizeBounded(ttlMs, maxSize, calls[..|calls| - 1]);
      StepSize(After(ttlMs, maxSize, calls[..|calls| - 1]), calls[|calls| - 1]);
    }
  }

  /** A word of its own for every length. */
  function Word(n: nat): (w: string)
    ensures |w| == n
  {
    if n == 0 then "" else Word(n - 1) + "x"
  }

  /** `n` marks at time `at`, of words longer than `len`. */
  function Flood(at: int, len: nat, n: nat): seq<Call> {
    if n == 0 then [] else Flood(at, len, n - 1) + [Call(at, MarkOp(Word(len + n)))]
  }

  /** No key of the cache is longer than `len`. */
  ghost predicate NoLonger(c: Cache, len: nat) {
    forall k :: k in c.entries.table ==> |k| <= len
  }

  /** `key` is live with exactly `n` live keys behind it, in a cache within its bounds. */
  ghost predicate Filling(c: Cache, key: string, at: int, n: nat, len: nat) {
    && c.entries.Valid() && |c.entries.order| <= Eviction.Room(c.maxSize) && c.ttlMs >= 0
    && c.Live(key, at) && key !in c.processing
    && |Behind(c, key, at)| == n
    && NoLonger(c, len)
  }

  lemma FloodStep(c: Cache, key: string, at: int, n: nat, len: nat)
    requires Filling(c, key, at, n, len)
    ensures n + 1 < Eviction.Room(c.maxSize) ==> Filling(Mark(c, Word(len + 1), at), key, at, n + 1, len + 1)
    ensures n + 1 >= Eviction.Room(c.maxSize) ==> !Mark(c, Word(len + 1), at).Knows(key, at)
  {
    hide Eviction.Behind, Eviction.Roomy;
    var x := Word(len + 1);
    Eviction.InsertedCounts(c.entries, c.maxSize, x, at + c.ttlMs, key, LivesAt(at));
  }

  lemma FloodLast(c: Cache, at: int, len: nat, n: nat)
    requires n > 0
    ensures |Flood(at, len, n)| == |Flood(at, len, n - 1)| + 1
    ensures Run(c, Flood(at, len, n)) == Mark(Run(c, Flood(at, len, n - 1)), Word(len + n), at)
    ensures MarkCount(c, Flood(at, len, n)) == MarkCount(c, Flood(at, len, n - 1)) + 1
  {
    hide Mark, Word;
    var calls := Flood(at, len, n);
    assert calls[..|calls| - 1] == Flood(at, len, n - 1);
  }

  lemma {:induction false} FloodFills(c: Cache, key: string, at: int, n: nat, len: nat, j: nat)
    requires Filling(c, key, at, n, len) && n + j < Eviction.Room(c.maxSize)
    ensures Filling(Run(c, Flood(at, len, j)), key, at, n + j, len + j) && Run(c, Flood(at, len, j)).maxSize == c.maxSize
    decreases j
  {
    hide Filling, Mark, Word;
    if j == 0 {
      assert Run(c, []) == c;
    } else {
      hide Run, Flood;
      var before := Run(c, Flood(at, len, j - 1));
      FloodFills(c, key, at, n, len, j - 1);
      FloodLast(c, at, len, j);
      FloodStep(before, key, at, n + j - 1, len + j - 1);
      assert before.entries.Valid() by { FillingValid(before, key, at, n + j - 1, len + j - 1); }
      MarkValid(before, Word(len + j), at);
    }
  }

  lemma FillingValid(c: Cache, key: string, at: int, n: nat, len: nat)
    requires Filling(c, key, at, n, len)
    ensures c.entries.Valid()
  {
  }

  lemma {:induction false} FloodTimes(c: Cache, at: int, len: nat, n: nat)
    ensures Within(Flood(at, len, n), at, at) && MarkCount(c, Flood(at, len, n)) == n && |Flood(at, len, n)| == n
  {
    hide *;
    if n == 0 {
      RunNone(c);
      NoFlood(at, len);
    } else {
      FloodTimes(c, at, len, n - 1);
      FloodLast(c, at, len, n);
      FloodWithin(at, len, n);
    }
  }

  lemma NoFlood(at: int, len: nat)
    ensures Flood(at, len, 0) == [] && Within([], at, at)
  {
  }

  lemma FloodWithin(at: int, len: nat, n: nat)
    requires n > 0 && Within(Flood(at, len, n - 1), at, at)
    ensures Within(Flood(at, len, n), at, at)
  {
    hide Word;
  }

  /** With one new key for every place that is left, `key` is pushed out within its lifetime. */
  lemma FloodPushesOut(c: Cache, key: string, at: int, n: nat, len: nat)
    requires Filling(c, key, at, n, len) && n < Eviction.Room(c.maxSize)
    ensures var calls := Flood(at, len, Eviction.Room(c.maxSize) - n);
      && Within(calls, at, at) && MarkCount(c, calls) == Eviction.Room(c.maxSize) - n
      && !Run(c, calls).Knows(key, at)
  {
    hide Filling, Mark, Word, Run, Flood, MarkCount, Within;
    var j := Eviction.Room(c.maxSize) - n;
    FloodFills(c, key, at, n, len, j - 1);
    FloodLast(c, at, len, j);
    FloodTimes(c, at, len, j);
    FloodStep(Run(c, Flood(at, len, j - 1)), key, at, n + j - 1, len + j - 1);
  }

  lemma {:induction false} LengthBound(keys: seq<string>) returns (len: nat)
    ensures forall k :: k in keys ==> |k| <= len
  {
    len := 0;
    if keys != [] {
      len := LengthBound(keys[1..]);
      assert keys == [keys[0]] + keys[1..];
      len := len + |keys[0]|;
    }
  }

  /** From `c`, every continuation within the lifetime of `key` with fewer than `b` added entries knows `key`. */
  ghost predicate KnownUpTo(c: Cache, key: string, at: int, b: nat) {
    forall calls: seq<Call>, now: int :: now <= at + c.ttlMs && Within(calls, at, now) && MarkCount(c, calls) < b ==>
      Run(c, calls).Knows(key, now)
  }

  lemma KnownUpToRoom(c: Cache, key: string, at: int, b: nat)
    requires c.entries.Valid() && |Behind(Mark(c, key, at), key, at)| + b <= Eviction.Room(c.maxSize)
    ensures KnownUpTo(Mark(c, key, at), key, at, b)
  {
    hide Mark, Behind, Run, MarkCount, Within;
    MarkValid(c, key, at);
    var m := Mark(c, key, at);
    forall calls: seq<Call>, now: int | now <= at + m.ttlMs && Within(calls, at, now) && MarkCount(m, calls) < b
      ensures Run(m, calls).Knows(key, now)
    {
      MarkSurvives(c, key, at, calls, now);
    }
  }

  lemma KnownNoFurther(c: Cache, key: string, at: int, b: nat)
    requires c.entries.Valid() && |c.entries.order| <= Eviction.Room(c.maxSize) && c.ttlMs >= 0
    requires |Behind(Mark(c, key, at), key, at)| + b > Eviction.Room(c.maxSize)
    ensures !KnownUpTo(Mark(c, key, at), key, at, b)
  {
    hide Mark, Eviction.Behind, Run, MarkCount, Within, Flood;
    MarkValid(c, key, at);
    var m := Mark(c, key, at);
    var n := |Behind(m, key, at)|;
    var len := LengthBound(m.entries.order);
    assert forall k :: k in m.entries.table ==> k in m.entries.order;
    Eviction.BehindFits(m.entries, key, LivesAt(at));
    FloodPushesOut(m, key, at, n, len);
    var calls := Flood(at, len, Eviction.Room(c.maxSize) - n);
    assert MarkCount(m, calls) < b;
    assert !Run(m, calls).Knows(key, at);
  }

  /**
    The bound is exact: after any run and a mark of any key, the key is known through every continuation within
    its lifetime that adds fewer than `b` entries, if and only if `b` and the live keys standing behind the key
    fit into the cache together.
   */
  lemma BoundIsExact(ttlMs: int, maxSize: int, before: seq<Call>, key: string, at: int, b: nat)
    requires ttlMs >= 0
    ensures var m := Mark(After(ttlMs, maxSize, before), key, at);
      KnownUpTo(m, key, at, b) <==> |Behind(m, key, at)| + b <= Eviction.Room(maxSize)
  {
    hide After, Mark, Behind, KnownUpTo;
    SizeBounded(ttlMs, maxSize, before);
    var c := After(ttlMs, maxSize, before);
    if |Behind(Mark(c, key, at), key, at)| + b <= Eviction.Room(maxSize) {
      KnownUpToRoom(c, key, at, b);
    } else {
      KnownNoFurther(c, key, at, b);
    }
  }

  /** Fewer than `maxSize` added entries are always survived exactly if no live key stands behind the marked one. */
  lemma FullBoundNeedsLastPlace(ttlMs: int, maxSize: int, before: seq<Call>, key: string, at: int)
    requires ttlMs >= 0 && maxSize >= 1
    ensures var m := Mark(After(ttlMs, maxSize, before), key, at);
      KnownUpTo(m, key, at, maxSize) <==> Behind(m, key, at) == []
  {
    hide After, Mark, Behind, KnownUpTo;
    BoundIsExact(ttlMs, maxSize, before, key, at, maxSize);
  }

  /** The same bound, told before the mark: the live keys behind a key count exactly if its entry stays. */
  lemma BoundByPlace(ttlMs: int, maxSize: int, before: seq<Call>, key: string, at: int, b: nat)
    requires ttlMs >= 0
    ensures var c := After(ttlMs, maxSize, before);
      KnownUpTo(Mark(c, key, at), key, at, b)
      <==> (if Stays(c, key, at) then |Behind(c, key, at)| else 0) + b <= Eviction.Room(maxSize)
  {
    hide After, Mark, Behind, KnownUpTo, Stays;
    BoundIsExact(ttlMs, maxSize, before, key, at, b);
    SizeBounded(ttlMs, maxSize, before);
    MarkPlace(After(ttlMs, maxSize, before), key, at);
  }

  /** Renewing a key whose entry stays leaves the keys added since behind it, and the full bound fails. */
  lemma RenewedKeyCanBeDropped(ttlMs: int, maxSize: int, before: seq<Call>, key: string, at: int)
    requires ttlMs >= 0 && maxSize >= 1
    requires var c := After(ttlMs, maxSize, before);
      key in c.entries.table && Behind(c, key, at) != []
      && (|c.entries.order| < maxSize || (c.Live(key, at) && |Behind(c, key, at)| + 1 < maxSize))
    ensures !KnownUpTo(Mark(After(ttlMs, maxSize, before), key, at), key, at, maxSize)
  {
    hide After, KnownUpTo, Mark, Eviction.Behind;
    SizeBounded(ttlMs, maxSize, before);
    BoundByPlace(ttlMs, maxSize, before, key, at, maxSize);
  }

  /** With room left, renewing changes nothing behind the key. */
  lemma RenewalCounts(c: Cache, key: string, at: int)
    requires c.entries.Valid() && key in c.entries.table && |c.entries.order| < c.maxSize
    ensures Behind(Mark(c, key, at), key, at) == Behind(c, key, at)
  {
    hide Eviction.Behind, Mark;
    MarkPlace(c, key, at);
  }

  // ----- The object -----

  class StringDedupCache {
    const ttlMs: int
    const maxSize: int
    var entries: JsMap<string, int>
    var processing: set<string>

    function Model(): Cache
      reads this
    {
      Cache(ttlMs, maxSize, entries, processing)
    }

    ghost predicate Valid()
      reads this
    {
      entries.Valid()
    }

    constructor (ttlMs: int, maxSize: int)
      ensures Valid() && Model() == New(ttlMs, maxSize)
    {
      this.ttlMs := ttlMs;
      this.maxSize := maxSize;
      entries := Empty();
      processing := {};
    }

    method Seen(key: string, now: int) returns (known: bool)
      requires Valid()
      modifies this
      ensures Valid() && Model() == Step(old(Model()), Call(now, SeenOp(key)))
      ensures known == old(Model()).Knows(key, now)
    {
      known := Has(key, now);
      if known {
        return;
      }
      MarkSeen(key, now);
    }

    method Has(key: string, now: int) returns (known: bool)
      requires Valid()
      modifies this`entries
      ensures Valid() && Model() == Step(old(Model()), Call(now, HasOp(key)))
      ensures known == old(Model()).Knows(key, now)
    {
      if key in processing {
        return true;
      }
      if key in entries.table {
        if now <= entries.table[key] {
          return true;
        }
        DeleteValid(entries, key);
        entries := entries.Delete(key);
      }
      return false;
    }

    method Reserve(key: string, now: int) returns (reserved: bool)
      requires Valid()
      modifies this
      ensures Valid() && Model() == Step(old(Model()), Call(now, ReserveOp(key)))
      ensures reserved == !old(Model()).Knows(key, now)
    {
      var known := Has(key, now);
      if known {
        return false;
      }
      processing := processing + {key};
      return true;
    }

    method Unreserve(key: string)
      requires Valid()
      modifies this`processing
      ensures Valid() && forall now :: Model() == Step(old(Model()), Call(now, UnreserveOp(key)))
    {
      processing := processing - {key};
    }

    method MarkSeen(key: string, now: int)
      requires Valid()
      modifies this
      ensures Valid() && Model() == Mark(old(Model()), key, now)
    {
      hide MakeRoom, JsMap.Set, JsMap.Valid;
      processing := processing - {key};
      ClearSpace(now);
      SetValid(entries, key, now + ttlMs);
      entries := entries.Set(key, now + ttlMs);
    }

    /** Sweep at capacity, then drop the oldest key. */
    method ClearSpace(now: int)
      requires Valid()
      modifies this`entries
      ensures Valid() && Model() == MakeRoom(old(Model()), now)
    {
      if |entries.order| >= maxSize {
        EvictExpired(now);
      }
      if |entries.order| >= maxSize {
        if entries.order != [] {
          DeleteValid(entries, entries.order[0]);
          entries := entries.Delete(entries.order[0]);
        }
      }
    }

    method EvictExpired(now: int)
      requires Valid()
      modifies this`entries
      ensures Valid() && Model() == Sweep(old(Model()), now)
    {
      var keys := entries.order;
      ghost var was := entries;
      ghost var live := Eviction.LiveIn(was, LivesAt(now));
      ghost var kept := was.table.Keys;
      WalkStart(was, live);
      for n := 0 to |keys|
        invariant entries == was.Restrict(kept) && WalkedTo(was, live, kept, n)
      {
        WalkStep(was, live, kept, n);
        if now > entries.table[keys[n]] {
          entries := entries.Delete(keys[n]);
          kept := kept - {keys[n]};
        }
      }
      WalkDone(was, live, kept);
    }
  }
}
