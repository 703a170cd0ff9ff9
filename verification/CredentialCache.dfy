/**
  The credential cache as a step system: calls of `get`, `refreshNow` and `invalidate`, and the completions,
  in any order, of the vault reads they started.
 */
module CredentialCache {
  import opened Options
  import opened JsMaps

  datatype Entry = Entry(value: Option<string>, expiresAt: int)

  /** A read that has not completed: its key and the generation its continuation captured. */
  datatype Read = Read(key: string, generation: nat)

  /** How a vault read can end. `Reachable(None)` is a credential that is known to be missing. */
  datatype Result = Reachable(value: Option<string>) | Unreachable | Rejected

  /** The cache's fields, and the reads whose continuations are still to run, numbered in starting order. */
  datatype Cache = Cache(
    ttlMs: int,
    entries: JsMap<string, Entry>,
    inflight: map<string, nat>,
    generation: nat,
    outstanding: map<nat, Read>,
    nextRead: nat)

  datatype Op =
    | GetOp(key: string, force: bool, now: int)
    | FetchOp(key: string)
    | CompleteOp(read: nat, result: Result, now: int)
    | InvalidateOp

  /** What happened, in order: reads beginning and ending, and invalidations. */
  datatype Event = Began(read: nat, key: string) | Ended(read: nat, result: Result) | Invalidated

  // ----- The steps -----

  function New(ttlMs: int): Cache {
    Cache(ttlMs, Empty(), map[], 0, map[], 0)
  }

  /** The unexpired entry of `key`. */
  predicate Fresh(c: Cache, key: string, now: int) {
    key in c.entries.table && now < c.entries.table[key].expiresAt
  }

  /** What a get answers at once from the cache; `None` if it waits for a read. */
  function Served(c: Cache, key: string, force: bool, now: int): Option<Option<string>> {
    if !force && Fresh(c, key, now) then Some(c.entries.table[key].value) else None
  }

  function Fetch(c: Cache, key: string): Cache {
    if key in c.inflight then c
    else c.(inflight := c.inflight[key := c.nextRead],
            outstanding := c.outstanding[c.nextRead := Read(key, c.generation)],
            nextRead := c.nextRead + 1)
  }

  function FetchEvents(c: Cache, key: string): seq<Event> {
    if key in c.inflight then [] else [Began(c.nextRead, key)]
  }

  /** The value cached for `key`: the last known one, or undefined. */
  function LastKnown(c: Cache, key: string): Option<string> {
    if key in c.entries.table then c.entries.table[key].value else None
  }

  function Complete(c: Cache, read: nat, result: Result, now: int): Cache
    requires read in c.outstanding
  {
    var key := c.outstanding[read].key;
    var ended := c.(outstanding := c.outstanding - {read});
    if c.outstanding[read].generation != c.generation then ended
    else
      var landed := ended.(inflight := c.inflight - {key});
      match result
      case Reachable(value) => landed.(entries := c.entries.Set(key, Entry(value, now + c.ttlMs)))
      case Unreachable => landed.(entries := c.entries.Set(key, Entry(LastKnown(c, key), now + c.ttlMs)))
      case Rejected => landed
  }

  function Invalidate(c: Cache): Cache {
    c.(generation := c.generation + 1, entries := Empty(), inflight := map[])
  }

  /** A completion of a read that is not outstanding cannot happen; as a step it changes nothing. */
  function Step(c: Cache, op: Op): Cache {
    match op
    case GetOp(key, force, now) => if !force && Fresh(c, key, now) then c else Fetch(c, key)
    case FetchOp(key) => Fetch(c, key)
    case CompleteOp(read, result, now) => if read in c.outstanding then Complete(c, read, result, now) else c
    case InvalidateOp => Invalidate(c)
  }

  function Events(c: Cache, op: Op): seq<Event> {
    match op
    case GetOp(key, force, now) => if !force && Fresh(c, key, now) then [] else FetchEvents(c, key)
    case FetchOp(key) => FetchEvents(c, key)
    case CompleteOp(read, result, _) => if read in c.outstanding then [Ended(read, result)] else []
    case InvalidateOp => [Invalidated]
  }

  /** The cache after `ops`, from a new one. */
  function After(ttlMs: int, ops: seq<Op>): Cache
    decreases |ops|
  {
    if ops == [] then New(ttlMs) else Step(After(ttlMs, ops[..|ops| - 1]), ops[|ops| - 1])
  }

  /** What happened on the way. */
  function Trace(ttlMs: int, ops: seq<Op>): seq<Event>
    decreases |ops|
  {
    if ops == [] then []
    else Trace(ttlMs, ops[..|ops| - 1]) + Events(After(ttlMs, ops[..|ops| - 1]), ops[|ops| - 1])
  }

  // ----- What the trace says by itself -----

  function BegunStep(begun: map<nat, string>, e: Event): map<nat, string> {
    match e
    case Began(read, key) => begun[read := key]
    case Ended(_, _) => begun
    case Invalidated => map[]
  }

  /** The reads begun since the last invalidation, with their keys. */
  function Begun(trace: seq<Event>): map<nat, string>
    decreases |trace|
  {
    if trace == [] then map[] else BegunStep(Begun(trace[..|trace| - 1]), trace[|trace| - 1])
  }

  function AnswersStep(answers: set<(nat, Option<string>)>, begun: map<nat, string>, e: Event, key: string)
    : set<(nat, Option<string>)>
  {
    match e
    case Began(_, _) => answers
    case Ended(read, result) =>
      if result.Reachable? && read in begun && begun[read] == key then answers + {(read, result.value)} else answers
    case Invalidated => {}
  }

  /** The reachable answers of reads of `key` begun since the last invalidation: read number and value. */
  function Answers(trace: seq<Event>, key: string): set<(nat, Option<string>)>
    decreases |trace|
  {
    if trace == [] then {}
    else
      var before := trace[..|trace| - 1];
      AnswersStep(Answers(before, key), Begun(before), trace[|trace| - 1], key)
  }

  /** `value` is what the latest-started of the answered reads of `key` returned; undefined when there is none. */
  ghost predicate LatestAnswer(answers: set<(nat, Option<string>)>, value: Option<string>) {
    if answers == {} then value == None
    else exists read: nat :: (read, value) in answers && forall a :: a in answers ==> a.0 <= read
  }

  // ----- The invariants -----

  /** `inflight` is exactly the outstanding reads of this generation, one for each key. */
  ghost predicate SingleFlight(c: Cache) {
    && (forall key :: key in c.inflight ==>
          c.inflight[key] in c.outstanding && c.outstanding[c.inflight[key]] == Read(key, c.generation))
    && (forall read :: read in c.outstanding && c.outstanding[read].generation == c.generation ==>
          c.outstanding[read].key in c.inflight && c.inflight[c.outstanding[read].key] == read)
  }

  /** The outstanding reads of this generation are the begun ones of the trace; older ones are not in it. */
  ghost predicate Fenced(c: Cache, begun: map<nat, string>) {
    && (forall read :: read in c.outstanding ==>
          && read < c.nextRead
          && c.outstanding[read].generation <= c.generation
          && (read in begun <==> c.outstanding[read].generation == c.generation))
    && (forall read :: read in begun ==> read < c.nextRead)
    && (forall read :: read in begun && read in c.outstanding ==> begun[read] == c.outstanding[read].key)
  }

  /** What is cached for `key` is its latest answer, and a read in flight is later than every answer. */
  ghost predicate Faithful(c: Cache, answers: set<(nat, Option<string>)>, key: string) {
    && LatestAnswer(answers, LastKnown(c, key))
    && (forall a :: a in answers ==> a.0 < c.nextRead)
    && (forall a :: a in answers && key in c.inflight ==> a.0 < c.inflight[key])
  }

  lemma TraceAppend(trace: seq<Event>, e: Event, key: string)
    ensures Begun(trace + [e]) == BegunStep(Begun(trace), e)
    ensures Answers(trace + [e], key) == AnswersStep(Answers(trace, key), Begun(trace), e, key)
  {
    assert (trace + [e])[..|trace|] == trace;
  }

  lemma FetchKeeps(c: Cache, x: string, begun: map<nat, string>)
    requires SingleFlight(c) && Fenced(c, begun) && x !in c.inflight
    ensures SingleFlight(Fetch(c, x)) && Fenced(Fetch(c, x), BegunStep(begun, Began(c.nextRead, x)))
  {
  }

  lemma FetchInvariant(c: Cache, x: string, trace: seq<Event>, key: string)
    requires Invariant(c, trace, key)
    ensures Invariant(Fetch(c, x), trace + FetchEvents(c, x), key)
  {
    hide Begun, Answers, LatestAnswer, SingleFlight, Fenced;
    if x !in c.inflight {
      FetchKeeps(c, x, Begun(trace));
      TraceAppend(trace, Began(c.nextRead, x), key);
    } else {
      assert trace + [] == trace;
    }
  }

  lemma CompleteFrame(c: Cache, read: nat, result: Result, now: int, trace: seq<Event>)
    requires SingleFlight(c) && Fenced(c, Begun(trace)) && read in c.outstanding
    ensures SingleFlight(Complete(c, read, result, now))
    ensures Fenced(Complete(c, read, result, now), Begun(trace + [Ended(read, result)]))
  {
    TraceAppend(trace, Ended(read, result), "");
  }

  lemma CompleteKeeps(c: Cache, read: nat, result: Result, now: int, trace: seq<Event>, key: string)
    requires SingleFlight(c) && Fenced(c, Begun(trace)) && Faithful(c, Answers(trace, key), key)
    requires read in c.outstanding
    ensures Faithful(Complete(c, read, result, now), Answers(trace + [Ended(read, result)], key), key)
  {
    TraceAppend(trace, Ended(read, result), key);
    var answers := Answers(trace, key);
    var c' := Complete(c, read, result, now);
    if c.outstanding[read] == Read(key, c.generation) && result.Reachable? {
      var answers' := answers + {(read, result.value)};
      assert (read, LastKnown(c', key)) in answers';
    } else {
      assert LastKnown(c', key) == LastKnown(c, key);
    }
  }

  ghost predicate Invariant(c: Cache, trace: seq<Event>, key: string) {
    SingleFlight(c) && Fenced(c, Begun(trace)) && Faithful(c, Answers(trace, key), key)
  }

  /** Each step keeps the three invariants, for every key. */
  lemma StepKeeps(c: Cache, op: Op, trace: seq<Event>, key: string)
    requires Invariant(c, trace, key)
    ensures Invariant(Step(c, op), trace + Events(c, op), key)
  {
    hide Fetch, Complete, FetchEvents, Begun, Answers;
    assert trace + [] == trace;
    match op
    case GetOp(x, force, now) => FetchInvariant(c, x, trace, key);
    case FetchOp(x) => FetchInvariant(c, x, trace, key);
    case CompleteOp(read, result, now) =>
      if read in c.outstanding {
        CompleteFrame(c, read, result, now, trace);
        CompleteKeeps(c, read, result, now, trace, key);
      }
    case InvalidateOp => TraceAppend(trace, Invalidated, key);
  }

  lemma {:induction false} RunKeeps(ttlMs: int, ops: seq<Op>, key: string)
    ensures Invariant(After(ttlMs, ops), Trace(ttlMs, ops), key)
    decreases |ops|
  {
    if ops != [] {
      hide Step, Events, Invariant;
      RunKeeps(ttlMs, ops[..|ops| - 1], key);
      StepKeeps(After(ttlMs, ops[..|ops| - 1]), ops[|ops| - 1], Trace(ttlMs, ops[..|ops| - 1]), key);
    }
  }

  // ----- The results -----

  /**
    In every reachable state the value cached for a key is what the latest-started answered read of the key
    begun since the last invalidation returned, and undefined if there is none. Outages, failed reads and
    reads begun before the invalidation leave no mark on it.
   */
  lemma CachedIsLatestAnswer(ttlMs: int, ops: seq<Op>, key: string)
    ensures LatestAnswer(Answers(Trace(ttlMs, ops), key), LastKnown(After(ttlMs, ops), key))
  {
    RunKeeps(ttlMs, ops, key);
  }

  /** At most one read of a key is outstanding in each generation, and it is the one callers are given. */
  lemma ReadsCoalesce(ttlMs: int, ops: seq<Op>, c: Cache, a: nat, b: nat)
    requires c == After(ttlMs, ops)
    requires a in c.outstanding && b in c.outstanding && c.outstanding[a] == c.outstanding[b]
    requires c.outstanding[a].generation == c.generation
    ensures a == b && c.outstanding[a].key in c.inflight && c.inflight[c.outstanding[a].key] == a
  {
    RunKeeps(ttlMs, ops, c.outstanding[a].key);
  }

  /** Whoever asks while a read is in flight starts no second one. */
  lemma AskingAgainStartsNothing(c: Cache, key: string, now: int)
    ensures Events(Step(c, GetOp(key, true, now)), FetchOp(key)) == []
    ensures forall later :: Events(Step(c, GetOp(key, true, now)), GetOp(key, true, later)) == []
  {
  }

  /** The value a completed read hands to everyone who awaited it; a rejected one throws. */
  function Answer(c: Cache, read: nat, result: Result): Option<string>
    requires read in c.outstanding
  {
    match result
    case Reachable(value) => value
    case Unreachable =>
      if c.outstanding[read].generation == c.generation then LastKnown(c, c.outstanding[read].key) else None
    case Rejected => None
  }

  /**
    Callers who awaited a read of the current generation are told what the trace says: the answer of this very
    read, or, in an outage, the latest answer there was.
   */
  lemma AwaitedIsLatestAnswer(ttlMs: int, ops: seq<Op>, c: Cache, trace: seq<Event>, read: nat, result: Result, now: int)
    requires c == After(ttlMs, ops) && trace == Trace(ttlMs, ops) && read in c.outstanding && !result.Rejected?
    requires c.outstanding[read].generation == c.generation
    ensures LatestAnswer(Answers(trace + [Ended(read, result)], c.outstanding[read].key), Answer(c, read, result))
    ensures LastKnown(Complete(c, read, result, now), c.outstanding[read].key) == Answer(c, read, result)
  {
    var key := c.outstanding[read].key;
    RunKeeps(ttlMs, ops, key);
    CompleteKeeps(c, read, result, now, trace, key);
  }

  /** A read begun before an invalidation never lands, and its outage tells nobody a value. */
  lemma StaleReadNeverLands(c: Cache, read: nat, result: Result, now: int)
    requires read in c.outstanding && c.outstanding[read].generation != c.generation
    ensures Complete(c, read, result, now).entries == c.entries
    ensures Complete(c, read, result, now).inflight == c.inflight
    ensures result.Unreachable? ==> Answer(c, read, result) == None
  {
  }

  /** `op` puts what a read of `key` says into the cache, or confirms what is there. */
  predicate Lands(c: Cache, op: Op, key: string) {
    op.CompleteOp? && op.read in c.outstanding && !op.result.Rejected?
    && c.outstanding[op.read] == Read(key, c.generation)
  }

  /** A read of `key` landed at step `i`, and since then there was neither a landing nor an invalidation. */
  predicate LastLanding(ttlMs: int, ops: seq<Op>, i: nat, key: string) {
    && i < |ops|
    && Lands(After(ttlMs, ops[..i]), ops[i], key)
    && forall j :: i < j < |ops| ==> !ops[j].InvalidateOp? && !Lands(After(ttlMs, ops[..j]), ops[j], key)
  }

  /** The last landing for `key` was at step `i`, `ttlMs` before `expiresAt`. */
  predicate LapsesAfter(ttlMs: int, ops: seq<Op>, i: nat, key: string, expiresAt: int) {
    LastLanding(ttlMs, ops, i, key) && ops[i].CompleteOp? && ops[i].now + ttlMs == expiresAt
  }

  lemma StepEntry(c: Cache, op: Op, key: string)
    requires key in Step(c, op).entries.table
    ensures Step(c, op).ttlMs == c.ttlMs
    ensures if Lands(c, op, key) then Step(c, op).entries.table[key].expiresAt == op.now + c.ttlMs
      else !op.InvalidateOp? && key in c.entries.table && Step(c, op).entries.table[key] == c.entries.table[key]
  {
  }

  lemma {:induction false} TtlIsFixed(ttlMs: int, ops: seq<Op>)
    ensures After(ttlMs, ops).ttlMs == ttlMs
    decreases |ops|
  {
    if ops != [] {
      TtlIsFixed(ttlMs, ops[..|ops| - 1]);
    }
  }

  /** A cached value is good for `ttlMs` from the last read of its key that landed, and no longer. */
  lemma {:induction false} EntryLapses(ttlMs: int, ops: seq<Op>, key: string)
    requires key in After(ttlMs, ops).entries.table
    ensures exists i: nat :: LapsesAfter(ttlMs, ops, i, key, After(ttlMs, ops).entries.table[key].expiresAt)
    decreases |ops|
  {
    if ops != [] {
      hide Step, Lands, LastLanding;
      var n := |ops| - 1;
      StepEntry(After(ttlMs, ops[..n]), ops[n], key);
      TtlIsFixed(ttlMs, ops[..n]);
      if Lands(After(ttlMs, ops[..n]), ops[n], key) {
        LandingNow(ttlMs, ops, key);
        assert LapsesAfter(ttlMs, ops, n, key, After(ttlMs, ops).entries.table[key].expiresAt);
      } else {
        EntryLapses(ttlMs, ops[..n], key);
        var expiresAt := After(ttlMs, ops).entries.table[key].expiresAt;
        var i: nat :| LapsesAfter(ttlMs, ops[..n], i, key, expiresAt);
        LandingStays(ttlMs, ops, i, key);
        assert LapsesAfter(ttlMs, ops, i, key, expiresAt);
      }
    }
  }

  lemma LandingNow(ttlMs: int, ops: seq<Op>, key: string)
    requires ops != [] && Lands(After(ttlMs, ops[..|ops| - 1]), ops[|ops| - 1], key)
    ensures LastLanding(ttlMs, ops, |ops| - 1, key) && ops[|ops| - 1].CompleteOp?
  {
  }

  lemma LandingStays(ttlMs: int, ops: seq<Op>, i: nat, key: string)
    requires ops != [] && LastLanding(ttlMs, ops[..|ops| - 1], i, key)
    requires !ops[|ops| - 1].InvalidateOp? && !Lands(After(ttlMs, ops[..|ops| - 1]), ops[|ops| - 1], key)
    ensures LastLanding(ttlMs, ops, i, key)
  {
    hide Lands, After;
    var n := |ops| - 1;
    assert ops[..n][..i] == ops[..i];
    forall j | i < j < |ops| ensures !ops[j].InvalidateOp? && !Lands(After(ttlMs, ops[..j]), ops[j], key) {
      if j < n {
        assert ops[..n][..j] == ops[..j];
        assert ops[..n][j] == ops[j];
      }
    }
  }

  /** What the last landing for a key put there is still there. */
  lemma {:induction false} LandedIsThere(ttlMs: int, ops: seq<Op>, i: nat, key: string)
    requires LastLanding(ttlMs, ops, i, key)
    ensures key in After(ttlMs, ops).entries.table && LapsesAfter(ttlMs, ops, i, key, After(ttlMs, ops).entries.table[key].expiresAt)
    decreases |ops|
  {
    var n := |ops| - 1;
    hide Step, Lands;
    TtlIsFixed(ttlMs, ops[..n]);
    if i < n {
      assert ops[..n][..i] == ops[..i];
      LandedBefore(ttlMs, ops, i, key);
      LandedIsThere(ttlMs, ops[..n], i, key);
      StepLeaves(After(ttlMs, ops[..n]), ops[n], key);
    } else {
      LandingStores(After(ttlMs, ops[..n]), ops[n], key);
    }
  }

  lemma LandedBefore(ttlMs: int, ops: seq<Op>, i: nat, key: string)
    requires LastLanding(ttlMs, ops, i, key) && i < |ops| - 1
    ensures LastLanding(ttlMs, ops[..|ops| - 1], i, key)
  {
    hide Lands, After;
    var before := ops[..|ops| - 1];
    assert before[..i] == ops[..i];
    forall j | i < j < |before| ensures !before[j].InvalidateOp? && !Lands(After(ttlMs, before[..j]), before[j], key) {
      assert before[..j] == ops[..j];
    }
  }

  lemma StepLeaves(c: Cache, op: Op, key: string)
    requires key in c.entries.table && !op.InvalidateOp? && !Lands(c, op, key)
    ensures key in Step(c, op).entries.table && Step(c, op).entries.table[key] == c.entries.table[key]
  {
  }

  lemma LandingStores(c: Cache, op: Op, key: string)
    requires Lands(c, op, key)
    ensures op.CompleteOp?
    ensures key in Step(c, op).entries.table && Step(c, op).entries.table[key].expiresAt == op.now + c.ttlMs
  {
  }

  // ----- What a get does -----

  /** The reads that have ended. */
  function Done(trace: seq<Event>): set<nat>
    decreases |trace|
  {
    if trace == [] then {}
    else
      var last := trace[|trace| - 1];
      Done(trace[..|trace| - 1]) + if last.Ended? then {last.read} else {}
  }

  /** A read of `key` begun since the last invalidation has not ended. */
  predicate Reading(trace: seq<Event>, key: string) {
    exists read :: read in Begun(trace) && Begun(trace)[read] == key && read !in Done(trace)
  }

  /** How many reads have begun. */
  function Started(trace: seq<Event>): nat
    decreases |trace|
  {
    if trace == [] then 0 else Started(trace[..|trace| - 1]) + if trace[|trace| - 1].Began? then 1 else 0
  }

  /** Reads are numbered as they begin, and the outstanding ones are those that have not ended. */
  ghost predicate Counted(c: Cache, trace: seq<Event>) {
    && c.nextRead == Started(trace)
    && (forall read :: read in Done(trace) ==> read < c.nextRead && read !in c.outstanding)
    && (forall read :: read in Begun(trace) && read !in Done(trace) ==> read in c.outstanding)
  }

  lemma CountAppend(trace: seq<Event>, e: Event)
    ensures Done(trace + [e]) == Done(trace) + if e.Ended? then {e.read} else {}
    ensures Started(trace + [e]) == Started(trace) + if e.Began? then 1 else 0
    ensures Begun(trace + [e]) == BegunStep(Begun(trace), e)
  {
    assert (trace + [e])[..|trace|] == trace;
  }

  lemma StepCounts(c: Cache, op: Op, trace: seq<Event>)
    requires SingleFlight(c) && Fenced(c, Begun(trace)) && Counted(c, trace)
    ensures Counted(Step(c, op), trace + Events(c, op))
  {
    hide Begun, Done, Started, Fresh, SingleFlight;
    if Events(c, op) == [] {
      assert trace + [] == trace;
    } else {
      CountAppend(trace, Events(c, op)[0]);
    }
  }

  lemma {:induction false} RunCounts(ttlMs: int, ops: seq<Op>)
    ensures Counted(After(ttlMs, ops), Trace(ttlMs, ops))
    decreases |ops|
  {
    if ops != [] {
      hide Step, Events, Counted, SingleFlight, Fenced;
      RunCounts(ttlMs, ops[..|ops| - 1]);
      RunKeeps(ttlMs, ops[..|ops| - 1], "");
      StepCounts(After(ttlMs, ops[..|ops| - 1]), ops[|ops| - 1], Trace(ttlMs, ops[..|ops| - 1]));
    }
  }

  /** The last read of `key` that landed in this generation landed less than `ttlMs` before `now`. */
  ghost predicate LandedWithin(ttlMs: int, ops: seq<Op>, key: string, now: int) {
    exists i: nat :: LastLanding(ttlMs, ops, i, key) && ops[i].CompleteOp? && now < ops[i].now + ttlMs
  }

  lemma FreshIsLanded(ttlMs: int, ops: seq<Op>, key: string, now: int)
    ensures Fresh(After(ttlMs, ops), key, now) <==> LandedWithin(ttlMs, ops, key, now)
  {
    hide After, Lands;
    if key in After(ttlMs, ops).entries.table {
      EntryLapses(ttlMs, ops, key);
    }
    if LandedWithin(ttlMs, ops, key, now) {
      var i: nat :| LastLanding(ttlMs, ops, i, key) && ops[i].CompleteOp? && now < ops[i].now + ttlMs;
      LandedIsThere(ttlMs, ops, i, key);
    }
  }

  /**
    After any run, a get is answered from the cache if and only if it is not forced and the last read of its key
    that landed since the last invalidation did so less than `ttlMs` ago; the answer is what the latest-started
    answered read returned.
   */
  lemma GetIsServed(ttlMs: int, ops: seq<Op>, key: string, force: bool, now: int)
    ensures var served := Served(After(ttlMs, ops), key, force, now);
      && (served.Some? <==> !force && LandedWithin(ttlMs, ops, key, now))
      && (served.Some? ==> LatestAnswer(Answers(Trace(ttlMs, ops), key), served.value))
  {
    hide After, Trace, LandedWithin, LatestAnswer;
    FreshIsLanded(ttlMs, ops, key, now);
    CachedIsLatestAnswer(ttlMs, ops, key);
  }

  /** A get that is not served begins a read of its key, the next in number, unless one is being read, and nothing else happens. */
  lemma GetReads(ttlMs: int, ops: seq<Op>, key: string, force: bool, now: int)
    ensures var trace := Trace(ttlMs, ops);
      Events(After(ttlMs, ops), GetOp(key, force, now))
      == if (!force && LandedWithin(ttlMs, ops, key, now)) || Reading(trace, key) then [] else [Began(Started(trace), key)]
  {
    hide After, Trace, LandedWithin, Begun, Done, Started, Fresh;
    FreshIsLanded(ttlMs, ops, key, now);
    InflightIsReading(ttlMs, ops, key);
    RunCounts(ttlMs, ops);
  }

  function FetchAll(c: Cache, keys: seq<string>): Cache
    decreases |keys|
  {
    if keys == [] then c else Step(FetchAll(c, keys[..|keys| - 1]), FetchOp(keys[|keys| - 1]))
  }

  /** A refresh of `keys` as calls. */
  function Refresh(keys: seq<string>): (ops: seq<Op>)
    ensures |ops| == |keys|
    decreases |keys|
  {
    if keys == [] then [] else Refresh(keys[..|keys| - 1]) + [FetchOp(keys[|keys| - 1])]
  }

  lemma StepReads(c: Cache, x: string, key: string)
    ensures x == key || key in c.inflight ==> key in Step(c, FetchOp(x)).inflight
    ensures Step(c, FetchOp(x)).entries == c.entries
  {
  }

  lemma RefreshLast(ops: seq<Op>, keys: seq<string>)
    requires keys != []
    ensures ops + Refresh(keys) == (ops + Refresh(keys[..|keys| - 1])) + [FetchOp(keys[|keys| - 1])]
    ensures (ops + Refresh(keys))[..|ops + Refresh(keys)| - 1] == ops + Refresh(keys[..|keys| - 1])
  {
  }

  /** A refresh is one fetch after the other: afterwards each of its keys is being read, and nothing cached has changed. */
  lemma {:induction false} RefreshReads(ttlMs: int, ops: seq<Op>, keys: seq<string>)
    ensures FetchAll(After(ttlMs, ops), keys) == After(ttlMs, ops + Refresh(keys))
    ensures forall key :: key in keys ==> key in After(ttlMs, ops + Refresh(keys)).inflight
    ensures After(ttlMs, ops + Refresh(keys)).entries == After(ttlMs, ops).entries
    decreases |keys|
  {
    hide Step;
    if keys == [] {
      assert ops + Refresh(keys) == ops;
    } else {
      var n := |keys| - 1;
      RefreshReads(ttlMs, ops, keys[..n]);
      RefreshLast(ops, keys);
      forall key | key in keys ensures key in After(ttlMs, ops + Refresh(keys)).inflight {
        StepReads(After(ttlMs, ops + Refresh(keys[..n])), keys[n], key);
        assert key == keys[n] || key in keys[..n];
      }
      StepReads(After(ttlMs, ops + Refresh(keys[..n])), keys[n], keys[n]);
    }
  }

  /** So after a refresh each key has a read of its own under way. */
  lemma RefreshIsReading(ttlMs: int, ops: seq<Op>, keys: seq<string>, key: string)
    requires key in keys
    ensures Reading(Trace(ttlMs, ops + Refresh(keys)), key)
  {
    hide After, Trace, Begun, Done;
    RefreshReads(ttlMs, ops, keys);
    InflightIsReading(ttlMs, ops + Refresh(keys), key);
  }

  /** What is in flight is a read of this generation that has not ended. */
  lemma InflightIsReading(ttlMs: int, ops: seq<Op>, key: string)
    ensures key in After(ttlMs, ops).inflight <==> Reading(Trace(ttlMs, ops), key)
  {
    hide After, Trace, Begun, Done, Started;
    RunKeeps(ttlMs, ops, key);
    RunCounts(ttlMs, ops);
    var c := After(ttlMs, ops);
    if key in c.inflight {
      assert c.inflight[key] in Begun(Trace(ttlMs, ops));
    }
  }

  // ----- The object -----

  class CredentialCache {
    const ttlMs: int
    var entries: JsMap<string, Entry>
    var inflight: map<string, nat>
    var generation: nat
    var outstanding: map<nat, Read>
    var nextRead: nat

    function Model(): Cache
      reads this
    {
      Cache(ttlMs, entries, inflight, generation, outstanding, nextRead)
    }

    constructor (ttlMs: int)
      ensures Model() == New(ttlMs)
    {
      this.ttlMs := ttlMs;
      entries := Empty();
      inflight := map[];
      generation := 0;
      outstanding := map[];
      nextRead := 0;
    }

    /** Answers from the cache, or names the read whose completion will answer. */
    method Get(key: string, force: bool, now: int) returns (cached: Option<Option<string>>, read: Option<nat>)
      modifies this
      ensures Model() == Step(old(Model()), GetOp(key, force, now))
      ensures cached == Served(old(Model()), key, force, now)
      ensures read == if cached.Some? then None else Some(inflight[key])
      ensures cached.None? ==> key in inflight
    {
      if !force {
        if key in entries.table && now < entries.table[key].expiresAt {
          return Some(entries.table[key].value), None;
        }
      }
      var started := FetchRead(key);
      return None, Some(started);
    }

    /** `fetch` in the source. */
    method FetchRead(key: string) returns (read: nat)
      modifies this
      ensures Model() == Step(old(Model()), FetchOp(key))
      ensures key in inflight && read == inflight[key]
    {
      if key in inflight {
        return inflight[key];
      }
      read := nextRead;
      outstanding := outstanding[read := Read(key, generation)];
      nextRead := nextRead + 1;
      inflight := inflight[key := read];
    }

    /** Fetch the given keys, or everything cached. */
    method RefreshNow(keys: Option<seq<string>>)
      modifies this
      ensures Model() == FetchAll(old(Model()), if keys.Some? then keys.value else old(entries).order)
    {
      var toRefresh := if keys.Some? then keys.value else entries.order;
      ghost var was := Model();
      for n := 0 to |toRefresh|
        invariant Model() == FetchAll(was, toRefresh[..n])
      {
        assert toRefresh[..n + 1][..n] == toRefresh[..n];
        var _ := FetchRead(toRefresh[n]);
      }
      assert toRefresh[..|toRefresh|] == toRefresh;
    }

    /** The continuation of a read. */
    method OnCompleted(read: nat, result: Result, now: int) returns (answer: Option<string>)
      requires read in outstanding
      modifies this
      ensures Model() == Step(old(Model()), CompleteOp(read, result, now))
      ensures answer == Answer(old(Model()), read, result)
    {
      var key := outstanding[read].key;
      var gen := outstanding[read].generation;
      outstanding := outstanding - {read};
      if result.Rejected? {
        if generation == gen {
          inflight := inflight - {key};
        }
        return None;
      }
      if generation != gen {
        return if result.Unreachable? then None else result.value;
      }
      inflight := inflight - {key};
      if result.Unreachable? {
        if key in entries.table && entries.table[key].value.Some? {
          answer := entries.table[key].value;
          entries := entries.Set(key, Entry(answer, now + ttlMs));
          return;
        }
        entries := entries.Set(key, Entry(None, now + ttlMs));
        return None;
      }
      entries := entries.Set(key, Entry(result.value, now + ttlMs));
      return result.value;
    }

    method Invalidate()
      modifies this
      ensures Model() == Step(old(Model()), InvalidateOp)
    {
      generation := generation + 1;
      entries := Empty();
      inflight := map[];
    }
  }
}
