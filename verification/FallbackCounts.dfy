/**
  The counts of legacy-auth fallbacks: the tracker that accumulates them, the reporter that ships them, and
  the law that none is lost or counted twice while flushes overlap and fail.
 */
module FallbackCounts {
  import opened Options
  import opened JsMaps
  import Text

  const MAX_TRACKED_KEYS: nat := 10_000

  /** One aggregated count for a guard, a path and a failure kind. */
  datatype Count = Count(guard: string, path: string, failureKind: string, count: int)

  /** The tracked counts under their composite keys. */
  type Table = JsMap<string, Count>

  // ----- The composite key -----

  function Key(guard: string, path: string, failureKind: string): string {
    guard + [' '] + path + [' '] + failureKind
  }

  function KeyOf(c: Count): string {
    Key(c.guard, c.path, c.failureKind)
  }

  lemma SplitAtEnd(s: string, tail: string)
    requires ' ' !in tail
    ensures Text.Last(Text.Split(s + [' '] + tail, ' ')) == tail
  {
    Text.SplitAppend(s, [' '] + tail, ' ');
    assert s + [' '] + tail == s + ([' '] + tail);
    var rest := Text.Last(Text.Split(s, ' '));
    Text.SplitPieces(s, ' ');
    Text.SplitFirst(rest, tail, ' ');
    assert rest + ([' '] + tail) == rest + [' '] + tail;
    Text.SplitNone(tail, ' ');
  }

  /** The words of a triple: its guard's, its path's and its failure kind's. */
  function Words(c: Count): seq<string> {
    Text.Split(c.guard, ' ') + Text.Split(c.path, ' ') + Text.Split(c.failureKind, ' ')
  }

  lemma WordsOfKey(c: Count)
    ensures Text.Split(KeyOf(c), ' ') == Words(c)
  {
    hide Text.Split;
    Text.SplitBetween(c.guard + [' '] + c.path, c.failureKind, ' ');
    Text.SplitBetween(c.guard, c.path, ' ');
  }

  /** Two triples share a key exactly if their words are the same, wherever guard, path and failure kind begin. */
  lemma KeysAgree(c: Count, d: Count)
    ensures KeyOf(c) == KeyOf(d) <==> Words(c) == Words(d)
  {
    hide Key, Words;
    WordsOfKey(c);
    WordsOfKey(d);
    Text.JoinSplit(KeyOf(c), ' ');
    Text.JoinSplit(KeyOf(d), ' ');
  }

  /**
    Triples with the same number of spaces in the guard and in the failure kind share a key only if they are
    equal; so a key mixes triples up exactly if their words agree and the spaces are spread differently.
   */
  lemma KeysMixUp(c: Count, d: Count)
    ensures KeyOf(c) == KeyOf(d) && Parts(c) != Parts(d)
       <==> Words(c) == Words(d) && (|Text.Split(c.guard, ' ')| != |Text.Split(d.guard, ' ')|
              || |Text.Split(c.failureKind, ' ')| != |Text.Split(d.failureKind, ' ')|)
  {
    hide Key, Text.Split;
    KeysAgree(c, d);
    var gc, gd := Text.Split(c.guard, ' '), Text.Split(d.guard, ' ');
    var pc, pd := Text.Split(c.path, ' '), Text.Split(d.path, ' ');
    var fc, fd := Text.Split(c.failureKind, ' '), Text.Split(d.failureKind, ' ');
    if Words(c) == Words(d) && |gc| == |gd| && |fc| == |fd| {
      assert |Words(c)| == |Words(d)|;
      assert gc == Words(c)[..|gc|] == Words(d)[..|gd|] == gd;
      assert pc == Words(c)[|gc|..|gc| + |pc|] == Words(d)[|gd|..|gd| + |pd|] == pd;
      assert fc == Words(c)[|gc| + |pc|..] == Words(d)[|gd| + |pd|..] == fd;
      SamePieces(c.guard, d.guard);
      SamePieces(c.path, d.path);
      SamePieces(c.failureKind, d.failureKind);
    }
  }

  function Parts(c: Count): (string, string, string) {
    (c.guard, c.path, c.failureKind)
  }

  lemma SamePieces(a: string, b: string)
    requires Text.Split(a, ' ') == Text.Split(b, ' ')
    ensures a == b
  {
    Text.JoinSplit(a, ' ');
    Text.JoinSplit(b, ' ');
  }

  /** The key tells the triples apart if the guard and the failure kind have no space; the path may have some. */
  lemma KeyIsInjective(c: Count, d: Count)
    requires ' ' !in c.guard && ' ' !in d.guard && ' ' !in c.failureKind && ' ' !in d.failureKind
    requires KeyOf(c) == KeyOf(d)
    ensures c.guard == d.guard && c.path == d.path && c.failureKind == d.failureKind
  {
    var key := KeyOf(c);
    SplitAtEnd(c.guard + [' '] + c.path, c.failureKind);
    SplitAtEnd(d.guard + [' '] + d.path, d.failureKind);
    assert c.failureKind == Text.Last(Text.Split(key, ' ')) == d.failureKind;
    KeyHead(c);
    KeyHead(d);
    assert c.guard == Text.Split(key, ' ')[0] == d.guard;
    KeyMiddle(c);
    KeyMiddle(d);
  }

  lemma KeyMiddle(c: Count)
    ensures |KeyOf(c)| == |c.guard| + |c.path| + |c.failureKind| + 2
    ensures KeyOf(c)[|c.guard| + 1..|c.guard| + 1 + |c.path|] == c.path
  {
  }

  lemma KeyHead(c: Count)
    requires ' ' !in c.guard
    ensures Text.Split(KeyOf(c), ' ')[0] == c.guard
  {
    assert KeyOf(c) == c.guard + [' '] + (c.path + [' '] + c.failureKind);
    Text.SplitFirst(c.guard, c.path + [' '] + c.failureKind, ' ');
  }

  /** With a space in a guard two triples can share a key. */
  lemma SpacesMixKeysUp()
    ensures KeyOf(Count("a b", "c", "d", 1)) == KeyOf(Count("a", "b c", "d", 1))
  {
  }

  // ----- The tracker -----

  function Add(t: Table, c: Count): Table {
    var key := KeyOf(c);
    if key in t.table then t.Set(key, t.table[key].(count := t.table[key].count + c.count))
    else if |t.order| >= MAX_TRACKED_KEYS then t
    else t.Set(key, c)
  }

  function Merge(t: Table, counts: seq<Count>): Table
    decreases |counts|
  {
    if counts == [] then t else Add(Merge(t, counts[..|counts| - 1]), counts[|counts| - 1])
  }

  ghost predicate Wellformed(t: Table) {
    && t.Valid()
    && |t.order| <= MAX_TRACKED_KEYS
    && forall k :: k in t.table ==> KeyOf(t.table[k]) == k
  }

  /** The first `n` tracked counts, in insertion order. */
  function Values(t: Table, n: nat): (values: seq<Count>)
    requires n <= |t.order| && forall k :: k in t.order ==> k in t.table
    ensures |values| == n
  {
    if n == 0 then [] else Values(t, n - 1) + [t.table[t.order[n - 1]]]
  }

  lemma {:induction false} ValueAt(t: Table, n: nat, i: nat)
    requires i < n <= |t.order| && forall k :: k in t.order ==> k in t.table
    ensures Values(t, n)[i] == t.table[t.order[i]]
  {
    if i < n - 1 {
      ValueAt(t, n - 1, i);
    }
  }

  function AllValues(t: Table): seq<Count>
    requires forall k :: k in t.order ==> k in t.table
  {
    Values(t, |t.order|)
  }

  // ----- What is tracked, shipped and dropped under one key -----

  function Tracked(t: Table, key: string): int {
    if key in t.table then t.table[key].count else 0
  }

  function Share(c: Count, key: string): int {
    if KeyOf(c) == key then c.count else 0
  }

  function InBatch(counts: seq<Count>, key: string): int
    decreases |counts|
  {
    if counts == [] then 0 else InBatch(counts[..|counts| - 1], key) + Share(counts[|counts| - 1], key)
  }

  /** What the key cap throws away when `c` is added. */
  function DroppedByAdd(t: Table, c: Count, key: string): int {
    if KeyOf(c) !in t.table && |t.order| >= MAX_TRACKED_KEYS then Share(c, key) else 0
  }

  function DroppedByMerge(t: Table, counts: seq<Count>, key: string): int
    decreases |counts|
  {
    if counts == [] then 0
    else
      var before := counts[..|counts| - 1];
      DroppedByMerge(t, before, key) + DroppedByAdd(Merge(t, before), counts[|counts| - 1], key)
  }

  lemma AddConserves(t: Table, c: Count, key: string)
    requires Wellformed(t)
    ensures Wellformed(Add(t, c))
    ensures Tracked(Add(t, c), key) + DroppedByAdd(t, c, key) == Tracked(t, key) + Share(c, key)
    ensures DroppedByAdd(t, c, key) != 0 ==> |Add(t, c).order| >= MAX_TRACKED_KEYS
    ensures |t.order| <= |Add(t, c).order|
  {
    hide Key;
  }

  lemma {:induction false} MergeConserves(t: Table, counts: seq<Count>, key: string)
    requires Wellformed(t)
    ensures Wellformed(Merge(t, counts))
    ensures Tracked(Merge(t, counts), key) + DroppedByMerge(t, counts, key) == Tracked(t, key) + InBatch(counts, key)
    ensures DroppedByMerge(t, counts, key) != 0 ==> |Merge(t, counts).order| >= MAX_TRACKED_KEYS
    decreases |counts|
  {
    if counts != [] {
      var before := counts[..|counts| - 1];
      MergeConserves(t, before, key);
      AddConserves(Merge(t, before), counts[|counts| - 1], key);
    }
  }

  lemma {:induction false} ValuesHold(t: Table, n: nat, key: string)
    requires Wellformed(t) && n <= |t.order|
    ensures InBatch(Values(t, n), key) == if key in t.order[..n] then t.table[key].count else 0
  {
    if n > 0 {
      ValuesHold(t, n - 1, key);
      var last := t.order[n - 1];
      assert t.order[..n] == t.order[..n - 1] + [last];
      assert last !in t.order[..n - 1];
      assert Values(t, n)[..n - 1] == Values(t, n - 1);
    }
  }

  /** Draining takes exactly what is tracked. */
  lemma DrainTakesAll(t: Table, key: string)
    requires Wellformed(t)
    ensures InBatch(AllValues(t), key) == Tracked(t, key)
  {
    ValuesHold(t, |t.order|, key);
    assert t.order[..|t.order|] == t.order;
  }

  // ----- Tracker and reporter together -----

  datatype Status = Posting | Acknowledged | MergedBack

  /** A drained batch on its way, with the window it covers. */
  datatype Flight = Flight(counts: seq<Count>, windowStart: int, windowEnd: int, status: Status)

  datatype System = System(table: Table, windowStartedAt: int, flights: seq<Flight>)

  /** An increment, a flush up to its POST, and the end of the POST of a flight. */
  datatype Op = Increment(guard: string, path: string, failureKind: string) | Flush(now: int) | PostEnds(flight: nat, ok: bool)

  function New(now: int): System {
    System(Empty(), now, [])
  }

  ghost predicate Consistent(s: System) {
    Wellformed(s.table)
  }

  function StartFlush(s: System, now: int): System
    requires forall k :: k in s.table.order ==> k in s.table.table
  {
    if s.table.order == [] then s
    else System(Empty(), now, s.flights + [Flight(AllValues(s.table), s.windowStartedAt, now, Posting)])
  }

  predicate Posts(s: System, flight: nat) {
    flight < |s.flights| && s.flights[flight].status == Posting
  }

  function EndPost(s: System, flight: nat, ok: bool): System
    requires Posts(s, flight)
  {
    var f := s.flights[flight];
    if ok then s.(flights := s.flights[flight := f.(status := Acknowledged)])
    else s.(table := Merge(s.table, f.counts), flights := s.flights[flight := f.(status := MergedBack)])
  }

  /** The end of a POST that is not under way cannot happen; as a step it changes nothing. */
  function Step(s: System, op: Op): (s': System)
    requires Consistent(s)
    ensures Consistent(s')
  {
    match op
    case Increment(guard, path, failureKind) =>
      AddConserves(s.table, Count(guard, path, failureKind, 1), "");
      s.(table := Add(s.table, Count(guard, path, failureKind, 1)))
    case Flush(now) => StartFlush(s, now)
    case PostEnds(flight, ok) =>
      if Posts(s, flight) then MergeConserves(s.table, s.flights[flight].counts, ""); EndPost(s, flight, ok) else s
  }

  function After(start: int, ops: seq<Op>): (s: System)
    ensures Consistent(s)
    decreases |ops|
  {
    if ops == [] then New(start) else Step(After(start, ops[..|ops| - 1]), ops[|ops| - 1])
  }

  // ----- The ledger of one key -----

  /** The counts under `key` in the first `n` flights of one status. */
  function InFlights(flights: seq<Flight>, status: Status, key: string, n: nat): int
    requires n <= |flights|
  {
    if n == 0 then 0
    else InFlights(flights, status, key, n - 1)
         + (if flights[n - 1].status == status then InBatch(flights[n - 1].counts, key) else 0)
  }

  function Flying(s: System, key: string): int {
    InFlights(s.flights, Posting, key, |s.flights|)
  }

  function Acked(s: System, key: string): int {
    InFlights(s.flights, Acknowledged, key, |s.flights|)
  }

  function IncrementsBy(op: Op, key: string): int {
    if op.Increment? && Key(op.guard, op.path, op.failureKind) == key then 1 else 0
  }

  function DroppedBy(s: System, op: Op, key: string): int {
    match op
    case Increment(guard, path, failureKind) => DroppedByAdd(s.table, Count(guard, path, failureKind, 1), key)
    case Flush(_) => 0
    case PostEnds(flight, ok) =>
      if Posts(s, flight) && !ok then DroppedByMerge(s.table, s.flights[flight].counts, key) else 0
  }

  function Increments(ops: seq<Op>, key: string): int
    decreases |ops|
  {
    if ops == [] then 0 else Increments(ops[..|ops| - 1], key) + IncrementsBy(ops[|ops| - 1], key)
  }

  function Dropped(start: int, ops: seq<Op>, key: string): int
    decreases |ops|
  {
    if ops == [] then 0
    else Dropped(start, ops[..|ops| - 1], key) + DroppedBy(After(start, ops[..|ops| - 1]), ops[|ops| - 1], key)
  }

  lemma {:induction false} FlightsAppend(flights: seq<Flight>, f: Flight, status: Status, key: string, n: nat)
    requires n <= |flights|
    ensures InFlights(flights + [f], status, key, n) == InFlights(flights, status, key, n)
  {
    if n > 0 {
      FlightsAppend(flights, f, status, key, n - 1);
    }
  }

  lemma {:induction false} FlightChanges(flights: seq<Flight>, i: nat, to: Status, status: Status, key: string, n: nat)
    requires n <= |flights| && i < |flights|
    ensures var share := if i < n then InBatch(flights[i].counts, key) else 0;
      InFlights(flights[i := flights[i].(status := to)], status, key, n)
      == InFlights(flights, status, key, n)
         - (if flights[i].status == status then share else 0) + (if to == status then share else 0)
  {
    if n > 0 {
      FlightChanges(flights, i, to, status, key, n - 1);
    }
  }

  /** What is tracked, on its way and acknowledged under `key`. */
  function Held(s: System, key: string): int {
    Tracked(s.table, key) + Flying(s, key) + Acked(s, key)
  }

  lemma EmptyTracksNothing(key: string)
    ensures Tracked(Empty(), key) == 0
  {
  }

  lemma OneMoreFlight(flights: seq<Flight>, f: Flight, status: Status, key: string)
    ensures InFlights(flights + [f], status, key, |flights| + 1)
         == InFlights(flights, status, key, |flights|) + if f.status == status then InBatch(f.counts, key) else 0
  {
    FlightsAppend(flights, f, status, key, |flights|);
  }

  lemma FlushBalances(s: System, now: int, key: string)
    requires Consistent(s)
    ensures (forall k :: k in s.table.order ==> k in s.table.table) && Held(StartFlush(s, now), key) == Held(s, key)
  {
    hide InFlights, InBatch, AllValues, Tracked;
    var f := Flight(AllValues(s.table), s.windowStartedAt, now, Posting);
    DrainTakesAll(s.table, key);
    EmptyTracksNothing(key);
    OneMoreFlight(s.flights, f, Posting, key);
    OneMoreFlight(s.flights, f, Acknowledged, key);
  }

  lemma PostBalances(s: System, flight: nat, ok: bool, key: string)
    requires Consistent(s) && Posts(s, flight)
    ensures Held(EndPost(s, flight, ok), key) + (if ok then 0 else DroppedByMerge(s.table, s.flights[flight].counts, key))
         == Held(s, key)
    ensures !ok && DroppedByMerge(s.table, s.flights[flight].counts, key) != 0 ==>
      |EndPost(s, flight, ok).table.order| >= MAX_TRACKED_KEYS
  {
    hide InFlights, InBatch, Merge, DroppedByMerge, Tracked, Wellformed;
    var to := if ok then Acknowledged else MergedBack;
    MergeConserves(s.table, s.flights[flight].counts, key);
    FlightChanges(s.flights, flight, to, Posting, key, |s.flights|);
    FlightChanges(s.flights, flight, to, Acknowledged, key, |s.flights|);
  }

  /** Each step keeps the balance of every key. */
  lemma StepBalances(s: System, op: Op, key: string)
    requires Consistent(s)
    ensures Held(Step(s, op), key) + DroppedBy(s, op, key) == Held(s, key) + IncrementsBy(op, key)
    ensures DroppedBy(s, op, key) != 0 ==> |Step(s, op).table.order| >= MAX_TRACKED_KEYS
  {
    hide InFlights, Tracked, StartFlush, EndPost, Add, DroppedByAdd, DroppedByMerge, Wellformed, Key;
    match op
    case Increment(guard, path, failureKind) => AddConserves(s.table, Count(guard, path, failureKind, 1), key);
    case Flush(now) => FlushBalances(s, now, key);
    case PostEnds(flight, ok) => if Posts(s, flight) { PostBalances(s, flight, ok, key); }
  }

  /**
    Over any interleaving of increments and overlapping flushes, every increment of a key is acknowledged, on
    its way, tracked, or was dropped at the key cap: exactly one of them.
   */
  lemma {:induction false} CountsAreConserved(start: int, ops: seq<Op>, key: string)
    ensures var s := After(start, ops);
      Increments(ops, key) == Acked(s, key) + Flying(s, key) + Tracked(s.table, key) + Dropped(start, ops, key)
    decreases |ops|
  {
    if ops != [] {
      hide Step, Consistent, DroppedBy, IncrementsBy;
      CountsAreConserved(start, ops[..|ops| - 1], key);
      StepBalances(After(start, ops[..|ops| - 1]), ops[|ops| - 1], key);
    }
  }

  // ----- The same, told by the ends of the POSTs -----

  /** How the POST of a flight ended, if it did: its first end counts, and only a flight that has started can end. */
  function EndOf(start: int, ops: seq<Op>, flight: nat): Option<bool>
    decreases |ops|
  {
    if ops == [] then None
    else
      var before, last := ops[..|ops| - 1], ops[|ops| - 1];
      if EndOf(start, before, flight).Some? then EndOf(start, before, flight)
      else if last.PostEnds? && last.flight == flight && flight < |After(start, before).flights| then Some(last.ok)
      else None
  }

  lemma StepStatus(s: System, op: Op, flight: nat)
    requires Consistent(s)
    ensures |s.flights| <= |Step(s, op).flights|
    ensures |s.flights| <= flight < |Step(s, op).flights| ==> Step(s, op).flights[flight].status == Posting
    ensures flight < |s.flights| ==>
      && Step(s, op).flights[flight].counts == s.flights[flight].counts
      && Step(s, op).flights[flight].status
         == if s.flights[flight].status == Posting && op.PostEnds? && op.flight == flight
            then (if op.ok then Acknowledged else MergedBack) else s.flights[flight].status
  {
    hide Merge, AllValues, Add, Wellformed;
  }

  /** A flight is acknowledged or merged back exactly as its POST ended, and on its way until then. */
  lemma {:induction false} StatusFollowsPosts(start: int, ops: seq<Op>, flight: nat)
    ensures flight >= |After(start, ops).flights| ==> EndOf(start, ops, flight) == None
    ensures flight < |After(start, ops).flights| ==>
      After(start, ops).flights[flight].status
      == (if EndOf(start, ops, flight) == None then Posting
          else if EndOf(start, ops, flight) == Some(true) then Acknowledged else MergedBack)
    decreases |ops|
  {
    if ops != [] {
      hide Step, Consistent;
      StatusFollowsPosts(start, ops[..|ops| - 1], flight);
      StepStatus(After(start, ops[..|ops| - 1]), ops[|ops| - 1], flight);
    }
  }

  /** The counts under `key` in those of the first `n` flights whose POST ended so. */
  function Sent(start: int, ops: seq<Op>, end: Option<bool>, key: string, n: nat): int
    requires n <= |After(start, ops).flights|
  {
    if n == 0 then 0
    else Sent(start, ops, end, key, n - 1)
         + (if EndOf(start, ops, n - 1) == end then InBatch(After(start, ops).flights[n - 1].counts, key) else 0)
  }

  lemma {:induction false} SentByStatus(start: int, ops: seq<Op>, key: string, n: nat)
    requires n <= |After(start, ops).flights|
    ensures InFlights(After(start, ops).flights, Acknowledged, key, n) == Sent(start, ops, Some(true), key, n)
    ensures InFlights(After(start, ops).flights, Posting, key, n) == Sent(start, ops, None, key, n)
  {
    hide After, EndOf, InBatch;
    if n > 0 {
      SentByStatus(start, ops, key, n - 1);
      StatusFollowsPosts(start, ops, n - 1);
    }
  }

  /**
    The ledger from the operations alone: every increment of a key is in a batch whose POST succeeded, in one
    whose POST has not ended, still tracked, or was dropped at the key cap.
   */
  lemma CountsFollowPosts(start: int, ops: seq<Op>, key: string)
    ensures var s := After(start, ops);
      Increments(ops, key) == Sent(start, ops, Some(true), key, |s.flights|) + Sent(start, ops, None, key, |s.flights|)
        + Tracked(s.table, key) + Dropped(start, ops, key)
  {
    hide After, Tracked, Dropped, Increments;
    CountsAreConserved(start, ops, key);
    SentByStatus(start, ops, key, |After(start, ops).flights|);
  }

  /** The table never reached its cap. */
  ghost predicate BelowCap(start: int, ops: seq<Op>) {
    forall n :: 0 <= n <= |ops| ==> |After(start, ops[..n]).table.order| < MAX_TRACKED_KEYS
  }

  lemma {:induction false} NothingDroppedBelowCap(start: int, ops: seq<Op>, key: string)
    requires BelowCap(start, ops)
    ensures Dropped(start, ops, key) == 0
    decreases |ops|
  {
    if ops != [] {
      var n := |ops| - 1;
      forall m | 0 <= m <= n ensures |After(start, ops[..n][..m]).table.order| < MAX_TRACKED_KEYS {
        assert ops[..n][..m] == ops[..m];
      }
      NothingDroppedBelowCap(start, ops[..n], key);
      StepBalances(After(start, ops[..n]), ops[n], key);
      assert ops[..n + 1] == ops;
    }
  }

  /** The windows of the flights follow one another without gap or overlap, from the start to the current one. */
  ghost predicate WindowsTile(s: System, start: int) {
    && (forall i :: 0 < i < |s.flights| ==> s.flights[i].windowStart == s.flights[i - 1].windowEnd)
    && (s.flights != [] ==> s.flights[0].windowStart == start)
    && s.windowStartedAt == if s.flights == [] then start else s.flights[|s.flights| - 1].windowEnd
  }

  lemma {:induction false} WindowsAreContiguous(start: int, ops: seq<Op>)
    ensures WindowsTile(After(start, ops), start)
    decreases |ops|
  {
    if ops != [] {
      hide Step, Consistent, WindowsTile;
      WindowsAreContiguous(start, ops[..|ops| - 1]);
      StepTiles(After(start, ops[..|ops| - 1]), ops[|ops| - 1], start);
    } else {
      assert WindowsTile(New(start), start);
    }
  }

  lemma StepTiles(s: System, op: Op, start: int)
    requires Consistent(s) && WindowsTile(s, start)
    ensures WindowsTile(Step(s, op), start)
  {
    hide Merge, AllValues, Add, Wellformed;
  }

  /** Operation `j` is the flush that sent this batch: everything tracked then, for the window up to then. */
  predicate SentBy(start: int, ops: seq<Op>, j: nat, flight: nat)
    requires flight < |After(start, ops).flights|
  {
    && j < |ops| && ops[j].Flush?
    && var s, f := After(start, ops[..j]), After(start, ops).flights[flight];
      (forall k :: k in s.table.order ==> k in s.table.table)
      && |s.flights| == flight && f.counts == AllValues(s.table) && f.counts != []
      && f.windowStart == s.windowStartedAt && f.windowEnd == ops[j].now
  }

  lemma StepSends(s: System, op: Op, flight: nat)
    requires Consistent(s) && flight < |Step(s, op).flights|
    ensures flight < |s.flights| ==>
      && Step(s, op).flights[flight].counts == s.flights[flight].counts
      && Step(s, op).flights[flight].windowStart == s.flights[flight].windowStart
      && Step(s, op).flights[flight].windowEnd == s.flights[flight].windowEnd
    ensures flight >= |s.flights| ==>
      && op.Flush? && flight == |s.flights| && s.table.order != []
      && (forall k :: k in s.table.order ==> k in s.table.table)
      && Step(s, op).flights[flight] == Flight(AllValues(s.table), s.windowStartedAt, op.now, Posting)
  {
    hide Merge, AllValues, Add;
  }

  /** Every batch is what one flush drained, with its window. */
  lemma {:induction false} FlightIsDrain(start: int, ops: seq<Op>, flight: nat) returns (j: nat)
    requires flight < |After(start, ops).flights|
    ensures SentBy(start, ops, j, flight)
    decreases |ops|
  {
    hide Step, Consistent, AllValues;
    var n := |ops| - 1;
    var s := After(start, ops[..n]);
    StepSends(s, ops[n], flight);
    if flight < |s.flights| {
      j := FlightIsDrain(start, ops[..n], flight);
      assert ops[..n][..j] == ops[..j];
    } else {
      j := n;
      ValuesOfSome(s.table);
    }
  }

  lemma ValuesOfSome(t: Table)
    requires t.order != [] && forall k :: k in t.order ==> k in t.table
    ensures AllValues(t) != []
  {
  }

  /** A flush leaves nothing behind: with anything tracked it sends one more batch and begins the next window. */
  lemma FlushSendsAll(start: int, ops: seq<Op>, now: int)
    ensures var s, d := After(start, ops), After(start, ops + [Flush(now)]);
      && d.table == Empty()
      && (if s.table.order == [] then d.flights == s.flights && d.windowStartedAt == s.windowStartedAt
          else |d.flights| == |s.flights| + 1 && d.windowStartedAt == now)
  {
    hide AllValues, After;
    assert (ops + [Flush(now)])[..|ops|] == ops;
    LastOp(start, ops + [Flush(now)]);
    EmptyTable(After(start, ops).table);
  }

  lemma LastOp(start: int, ops: seq<Op>)
    requires ops != []
    ensures After(start, ops) == Step(After(start, ops[..|ops| - 1]), ops[|ops| - 1])
  {
    hide Step, Consistent;
  }

  lemma EmptyTable(t: Table)
    requires Wellformed(t)
    ensures t.order == [] ==> t == Empty()
  {
    if t.order == [] {
      assert forall k :: k !in t.table;
      assert t.table == map[];
    }
  }

  // ----- The objects -----

  /** A tracked count: an object that increments update in place. */
  class CountEntry {
    const guard: string
    const path: string
    const failureKind: string
    var count: int

    constructor (c: Count)
      ensures Value() == c
    {
      guard, path, failureKind, count := c.guard, c.path, c.failureKind, c.count;
    }

    function Value(): Count
      reads this
    {
      Count(guard, path, failureKind, count)
    }
  }

  lemma TableHasKeys(t: Table)
    requires Wellformed(t)
    ensures forall k :: k in t.order ==> k in t.table
  {
  }

  lemma EmptyIsWellformed()
    ensures Wellformed(Empty())
  {
  }

  lemma SetNew<V>(m: JsMap<string, V>, key: string, v: V)
    requires key !in m.table
    ensures m.Set(key, v) == JsMap(m.order + [key], m.table[key := v])
  {
  }

  lemma AddNew(t: Table, c: Count)
    requires KeyOf(c) !in t.table && |t.order| < MAX_TRACKED_KEYS
    ensures Add(t, c) == JsMap(t.order + [KeyOf(c)], t.table[KeyOf(c) := c])
  {
  }

  class AuthFallbackCountTracker {
    var counts: JsMap<string, CountEntry>
    var windowStartedAt: int
    ghost var Contents: Table
    ghost var Repr: set<CountEntry>

    /** `Contents` is what the entries say; as each entry says its own key, no two keys share one. */
    ghost predicate Valid()
      reads this, Repr
    {
      && Wellformed(Contents)
      && counts.order == Contents.order
      && counts.table.Keys == Contents.table.Keys
      && (forall k :: k in counts.table ==> counts.table[k] in Repr && counts.table[k].Value() == Contents.table[k])
    }

    /** No two keys share an entry object. */
    lemma OwnEntries(k: string, l: string)
      requires Valid() && k in counts.table && l in counts.table && k != l
      ensures counts.table[k] != counts.table[l]
    {
      assert KeyOf(counts.table[k].Value()) == k && KeyOf(counts.table[l].Value()) == l;
    }

    constructor (now: int)
      ensures Valid() && Contents == Empty() && windowStartedAt == now && Repr == {}
    {
      counts := Empty();
      windowStartedAt := now;
      Contents := Empty();
      Repr := {};
    }

    method IncrementCount(guard: string, path: string, failureKind: string)
      requires Valid()
      modifies this, Repr
      ensures Valid() && fresh(Repr - old(Repr)) && windowStartedAt == old(windowStartedAt)
      ensures Contents == Add(old(Contents), Count(guard, path, failureKind, 1))
    {
      AddCount(Count(guard, path, failureKind, 1));
    }

    method AddCount(c: Count)
      requires Valid()
      modifies this, Repr
      ensures Valid() && fresh(Repr - old(Repr)) && windowStartedAt == old(windowStartedAt)
      ensures Contents == Add(old(Contents), c)
    {
      var key := Key(c.guard, c.path, c.failureKind);
      if key in counts.table {
        Bump(key, c);
        return;
      }
      if |counts.order| >= MAX_TRACKED_KEYS {
        return;
      }
      Track(key, c);
    }

    /** Raise the count of a tracked key, in its entry. */
    method Bump(key: string, c: Count)
      requires Valid() && key == KeyOf(c) && key in counts.table
      modifies this, Repr
      ensures Valid() && Repr == old(Repr) && windowStartedAt == old(windowStartedAt)
      ensures Contents == Add(old(Contents), c)
    {
      hide Key;
      AddConserves(Contents, c, "");
      forall k | k in counts.table && k != key ensures counts.table[k] != counts.table[key] {
        OwnEntries(k, key);
      }
      Contents := Add(Contents, c);
      counts.table[key].count := counts.table[key].count + c.count;
    }

    /** Track a new key. */
    method Track(key: string, c: Count)
      requires Valid() && key == KeyOf(c) && key !in counts.table && |counts.order| < MAX_TRACKED_KEYS
      modifies this
      ensures Valid() && fresh(Repr - old(Repr)) && windowStartedAt == old(windowStartedAt)
      ensures Contents == Add(old(Contents), c)
    {
      hide Key, Wellformed, Add, JsMap.Set;
      AddConserves(Contents, c, "");
      AddNew(Contents, c);
      var entry := new CountEntry(c);
      SetNew(counts, key, entry);
      counts := counts.Set(key, entry);
      Contents := Add(Contents, c);
      Repr := Repr + {entry};
    }

    /** The drained entries are the tracked ones, and the tracker lets go of them: no later call can touch them. */
    method Drain(now: int) returns (windowStart: int, windowEnd: int, batch: seq<CountEntry>)
      requires Valid()
      modifies this
      ensures Valid() && windowStart == old(windowStartedAt) && windowEnd == now
      ensures |batch| == |old(Contents).order|
      ensures forall i :: 0 <= i < |batch| ==>
        batch[i] in old(Repr) && batch[i] !in Repr && batch[i].Value() == AllValues(old(Contents))[i]
      ensures Repr <= old(Repr)
      ensures batch == [] ==> Contents == old(Contents) && windowStartedAt == old(windowStartedAt)
      ensures batch != [] ==> Contents == Empty() && windowStartedAt == now
    {
      batch := [];
      hide Wellformed, Values;
      assert forall k :: k in Contents.order ==> k in Contents.table by { TableHasKeys(Contents); }
      for n := 0 to |counts.order|
        invariant n == |batch|
        invariant forall i :: 0 <= i < n ==> batch[i] in Repr && batch[i].Value() == Contents.table[Contents.order[i]]
      {
        batch := batch + [counts.table[counts.order[n]]];
      }
      windowStart, windowEnd := windowStartedAt, now;
      forall i | 0 <= i < |batch| ensures batch[i].Value() == AllValues(Contents)[i] {
        ValueAt(Contents, |batch|, i);
      }
      if batch == [] {
        return;
      }
      EmptyIsWellformed();
      counts := Empty();
      Contents := Empty();
      Repr := {};
      windowStartedAt := now;
    }

    /** Fold a drained batch back in. */
    method MergeBatch(batch: seq<CountEntry>, ghost values: seq<Count>)
      requires Valid()
      requires |values| == |batch|
      requires forall i :: 0 <= i < |batch| ==> batch[i] !in Repr && batch[i].Value() == values[i]
      modifies this, Repr
      ensures Valid() && fresh(Repr - old(Repr)) && windowStartedAt == old(windowStartedAt)
      ensures Contents == Merge(old(Contents), values)
    {
      for n := 0 to |batch|
        invariant Valid() && fresh(Repr - old(Repr)) && windowStartedAt == old(windowStartedAt)
        invariant Contents == Merge(old(Contents), values[..n])
      {
        assert values[..n + 1][..n] == values[..n];
        assert batch[n].Value() == values[n];
        AddCount(Count(batch[n].guard, batch[n].path, batch[n].failureKind, batch[n].count));
      }
      assert values[..|batch|] == values;
    }
  }

  /** A batch the reporter drained: the objects it would merge back. */
  datatype Batch = Batch(entries: seq<CountEntry>, windowStart: int, windowEnd: int, status: Status)

  class AuthFallbackReporter {
    const tracker: AuthFallbackCountTracker
    var batches: seq<Batch>
    /** The counts each batch had when it was drained: the body of its POST. */
    ghost var Flights: seq<Flight>

    /** The entry objects of `b` still say what was posted, and the tracker has none of them. */
    ghost predicate Intact(b: Batch, f: Flight)
      reads tracker, b.entries
    {
      && |b.entries| == |f.counts|
      && f == Flight(f.counts, b.windowStart, b.windowEnd, b.status)
      && forall i :: 0 <= i < |b.entries| ==> b.entries[i] !in tracker.Repr && b.entries[i].Value() == f.counts[i]
    }

    ghost predicate Valid()
      reads this, tracker, tracker.Repr, set i, j | 0 <= i < |batches| && 0 <= j < |batches[i].entries| :: batches[i].entries[j]
    {
      && tracker.Valid()
      && |batches| == |Flights|
      && forall i :: 0 <= i < |batches| ==> Intact(batches[i], Flights[i])
    }

    ghost function Model(): System
      reads this, tracker
    {
      System(tracker.Contents, tracker.windowStartedAt, Flights)
    }

    constructor (tracker: AuthFallbackCountTracker)
      requires tracker.Valid() && tracker.Contents == Empty()
      ensures Valid() && this.tracker == tracker && Model() == New(tracker.windowStartedAt)
    {
      this.tracker := tracker;
      batches := [];
      Flights := [];
    }

    /** The auth path counts a fallback on the shared tracker while batches may be on their way. */
    method OnFallback(guard: string, path: string, failureKind: string)
      requires Valid()
      modifies tracker, tracker.Repr
      ensures Valid() && fresh(tracker.Repr - old(tracker.Repr))
      ensures Model() == Step(old(Model()), Increment(guard, path, failureKind))
    {
      hide Add, Wellformed;
      tracker.IncrementCount(guard, path, failureKind);
    }

    /** `flush` up to the POST. */
    method StartPost(now: int)
      requires Valid()
      modifies this, tracker
      ensures Valid() && tracker.Repr <= old(tracker.Repr)
      ensures Model() == Step(old(Model()), Op.Flush(now))
    {
      var windowStart, windowEnd, entries := tracker.Drain(now);
      if entries == [] {
        return;
      }
      batches := batches + [Batch(entries, windowStart, windowEnd, Posting)];
      Flights := Flights + [Flight(AllValues(old(tracker.Contents)), windowStart, windowEnd, Posting)];
    }

    /** The rest of `flush`, when the POST of a batch was accepted or failed. */
    method OnPostEnds(flight: nat, ok: bool)
      requires Valid() && flight < |batches| && batches[flight].status == Posting
      modifies this, tracker, tracker.Repr
      ensures Valid() && fresh(tracker.Repr - old(tracker.Repr))
      ensures Model() == Step(old(Model()), PostEnds(flight, ok))
    {
      hide Merge, Wellformed;
      if !ok {
        tracker.MergeBatch(batches[flight].entries, Flights[flight].counts);
      }
      var status := if ok then Acknowledged else MergedBack;
      batches := batches[flight := batches[flight].(status := status)];
      Flights := Flights[flight := Flights[flight].(status := status)];
    }
  }
}
