/**
  The sliding-window limiter of authentication failures. The specification is the plain log of failures;
  the table is shown to give the same answers as the log, except where its size cap threw an address out.
 */
module AuthRateLimiter {
  import opened JsMaps

  const MAX_TRACKED_IPS: nat := 50_000

  type Table = JsMap<string, seq<int>>

  datatype Call = Fail(ip: string, now: int) | Query(ip: string, now: int) | Clear(ip: string, now: int)

  // ----- One call -----

  /** `ts` without its leading times at or before `cutoff`. */
  function DropFront(ts: seq<int>, cutoff: int): seq<int> {
    if ts != [] && ts[0] <= cutoff then DropFront(ts[1..], cutoff) else ts
  }

  /** Drop the expired front of one address's list, and the address when nothing is left. */
  function PruneOne(t: Table, ip: string, cutoff: int): Table {
    if ip !in t.table then t
    else if DropFront(t.table[ip], cutoff) == [] then t.Delete(ip)
    else t.Set(ip, DropFront(t.table[ip], cutoff))
  }

  function PruneAll(t: Table, ips: seq<string>, cutoff: int): Table {
    if ips == [] then t
    else PruneOne(PruneAll(t, ips[..|ips| - 1], cutoff), ips[|ips| - 1], cutoff)
  }

  function EvictStale(t: Table, cutoff: int): Table {
    PruneAll(t, t.order, cutoff)
  }

  /** The hard cap has to throw out the oldest address for a new one to fit. */
  predicate Overfull(t: Table, cutoff: int) {
    |t.order| >= MAX_TRACKED_IPS && |EvictStale(t, cutoff).order| >= MAX_TRACKED_IPS
  }

  function MakeRoom(t: Table, cutoff: int): Table {
    if |t.order| < MAX_TRACKED_IPS then t
    else if !Overfull(t, cutoff) then EvictStale(t, cutoff)
    else EvictStale(t, cutoff).Delete(EvictStale(t, cutoff).order[0])
  }

  function Record(t: Table, ip: string, now: int, cutoff: int): Table {
    if ip in t.table then t.Set(ip, t.table[ip] + [now])
    else MakeRoom(t, cutoff).Set(ip, [now])
  }

  /** The times kept for `ip`; none when it is not tracked. */
  function Times(t: Table, ip: string): seq<int> {
    if ip in t.table then t.table[ip] else []
  }

  predicate Blocked(t: Table, maxFailures: int, ip: string, cutoff: int) {
    var recent := DropFront(Times(t, ip), cutoff);
    recent != [] && |recent| >= maxFailures
  }

  function Step(t: Table, windowMs: int, call: Call): Table {
    match call
    case Fail(ip, now) => Record(t, ip, now, now - windowMs)
    case Query(ip, now) => PruneOne(t, ip, now - windowMs)
    case Clear(ip, _) => t.Delete(ip)
  }

  /** `call` makes the hard cap throw out `ip`. */
  predicate Drops(t: Table, windowMs: int, call: Call, ip: string) {
    && call.Fail? && call.ip !in t.table
    && Overfull(t, call.now - windowMs)
    && EvictStale(t, call.now - windowMs).order[0] == ip
  }

  // ----- Runs, and the log they are measured against -----

  function After(windowMs: int, calls: seq<Call>, n: nat): Table
    requires n <= |calls|
  {
    if n == 0 then Empty() else Step(After(windowMs, calls, n - 1), windowMs, calls[n - 1])
  }

  function LogStep(log: seq<int>, call: Call, ip: string): seq<int> {
    match call
    case Fail(x, now) => if x == ip then log + [now] else log
    case Query(_, _) => log
    case Clear(x, _) => if x == ip then [] else log
  }

  /** The log: all failures of `ip` in the first `n` calls since it was last cleared. */
  function Failures(calls: seq<Call>, n: nat, ip: string): seq<int>
    requires n <= |calls|
  {
    if n == 0 then [] else LogStep(Failures(calls, n - 1, ip), calls[n - 1], ip)
  }

  /** How many times in `ts` lie after `cutoff`. */
  function CountAfter(ts: seq<int>, cutoff: int): nat {
    if ts == [] then 0
    else CountAfter(ts[..|ts| - 1], cutoff) + if cutoff < ts[|ts| - 1] then 1 else 0
  }

  ghost predicate Monotone(calls: seq<Call>) {
    forall i, j :: 0 <= i < j < |calls| ==> calls[i].now <= calls[j].now
  }

  /** Since `ip` was last cleared, the hard cap has not thrown it out at a time after `cutoff`. */
  predicate Undropped(windowMs: int, calls: seq<Call>, n: nat, ip: string, cutoff: int)
    requires n <= |calls|
  {
    n == 0
    || calls[n - 1] == Clear(ip, calls[n - 1].now)
    || (&& Undropped(windowMs, calls, n - 1, ip, cutoff)
        && (Drops(After(windowMs, calls, n - 1), windowMs, calls[n - 1], ip) ==> calls[n - 1].now <= cutoff))
  }

  // ----- Lists of times -----

  ghost predicate Sorted(ts: seq<int>) {
    forall i, j :: 0 <= i < j < |ts| ==> ts[i] <= ts[j]
  }

  ghost predicate SuffixOf(ts: seq<int>, whole: seq<int>) {
    |ts| <= |whole| && whole[|whole| - |ts|..] == ts
  }

  lemma {:induction false} CountAppend(a: seq<int>, b: seq<int>, cutoff: int)
    ensures CountAfter(a + b, cutoff) == CountAfter(a, cutoff) + CountAfter(b, cutoff)
    decreases |b|
  {
    if b == [] {
      assert a + b == a;
    } else {
      assert (a + b)[..|a + b| - 1] == a + b[..|b| - 1];
      CountAppend(a, b[..|b| - 1], cutoff);
    }
  }

  lemma {:induction false} CountNone(ts: seq<int>, cutoff: int)
    requires forall i :: 0 <= i < |ts| ==> ts[i] <= cutoff
    ensures CountAfter(ts, cutoff) == 0
  {
    if ts != [] {
      CountNone(ts[..|ts| - 1], cutoff);
    }
  }

  lemma {:induction false} CountAll(ts: seq<int>, cutoff: int)
    requires forall i :: 0 <= i < |ts| ==> cutoff < ts[i]
    ensures CountAfter(ts, cutoff) == |ts|
  {
    if ts != [] {
      CountAll(ts[..|ts| - 1], cutoff);
    }
  }

  /** What dropping the front takes away: only times at or before the cutoff, and all of them when sorted. */
  lemma DropFrontFacts(ts: seq<int>, cutoff: int)
    ensures SuffixOf(DropFront(ts, cutoff), ts)
    ensures forall i :: 0 <= i < |ts| - |DropFront(ts, cutoff)| ==> ts[i] <= cutoff
    ensures Sorted(ts) ==> |DropFront(ts, cutoff)| == CountAfter(ts, cutoff)
  {
    hide CountAfter, DropFront;
    DropFrontIsSuffix(ts, cutoff);
    if Sorted(ts) {
      DropFrontCounts(ts, cutoff);
    }
  }

  lemma {:induction false} DropFrontIsSuffix(ts: seq<int>, cutoff: int)
    ensures SuffixOf(DropFront(ts, cutoff), ts)
    ensures forall i :: 0 <= i < |ts| - |DropFront(ts, cutoff)| ==> ts[i] <= cutoff
  {
    if ts != [] && ts[0] <= cutoff {
      var rest := DropFront(ts[1..], cutoff);
      DropFrontIsSuffix(ts[1..], cutoff);
      assert ts[|ts| - |rest|..] == ts[1..][|ts| - 1 - |rest|..];
      forall i | 0 <= i < |ts| - |rest| ensures ts[i] <= cutoff {
        if i > 0 { assert ts[i] == ts[1..][i - 1]; }
      }
    }
  }

  lemma {:induction false} DropFrontCounts(ts: seq<int>, cutoff: int)
    requires Sorted(ts)
    ensures |DropFront(ts, cutoff)| == CountAfter(ts, cutoff)
  {
    hide CountAfter;
    if ts != [] && ts[0] <= cutoff {
      DropFrontCounts(ts[1..], cutoff);
      CountAppend([ts[0]], ts[1..], cutoff);
      CountNone([ts[0]], cutoff);
      assert ts == [ts[0]] + ts[1..];
    } else {
      CountAll(ts, cutoff);
    }
  }

  /** Dropping the front at an earlier cutoff does not change the count after a later one. */
  lemma DropFrontKeepsCount(ts: seq<int>, earlier: int, cutoff: int)
    requires earlier <= cutoff
    ensures CountAfter(DropFront(ts, earlier), cutoff) == CountAfter(ts, cutoff)
  {
    DropFrontFacts(ts, earlier);
    var n := |ts| - |DropFront(ts, earlier)|;
    assert ts == ts[..n] + DropFront(ts, earlier);
    CountNone(ts[..n], cutoff);
    CountAppend(ts[..n], DropFront(ts, earlier), cutoff);
  }

  lemma SuffixTrans(a: seq<int>, b: seq<int>, c: seq<int>)
    requires SuffixOf(a, b) && SuffixOf(b, c)
    ensures SuffixOf(a, c)
  {
    assert c[|c| - |a|..] == c[|c| - |b|..][|b| - |a|..];
  }

  // ----- What one call does to one address -----

  ghost predicate Wellformed(t: Table) {
    t.Valid() && forall ip :: ip in t.table ==> t.table[ip] != []
  }

  lemma PruneOneFacts(t: Table, x: string, cutoff: int)
    requires Wellformed(t)
    ensures Wellformed(PruneOne(t, x, cutoff)) && |PruneOne(t, x, cutoff).order| <= |t.order|
    ensures forall ip ::
      Times(PruneOne(t, x, cutoff), ip) == if ip == x then DropFront(Times(t, ip), cutoff) else Times(t, ip)
  {
    DeleteValid(t, x);
    if x in t.table && DropFront(t.table[x], cutoff) != [] {
      SetValid(t, x, DropFront(t.table[x], cutoff));
    }
  }

  lemma {:induction false} PruneAllFacts(t: Table, ips: seq<string>, cutoff: int)
    requires Wellformed(t) && Unique(ips)
    ensures Wellformed(PruneAll(t, ips, cutoff)) && |PruneAll(t, ips, cutoff).order| <= |t.order|
    ensures forall ip ::
      Times(PruneAll(t, ips, cutoff), ip) == if ip in ips then DropFront(Times(t, ip), cutoff) else Times(t, ip)
    decreases |ips|
  {
    if ips != [] {
      var before := ips[..|ips| - 1];
      var last := ips[|ips| - 1];
      PruneAllFacts(t, before, cutoff);
      PruneOneFacts(PruneAll(t, before, cutoff), last, cutoff);
      assert last !in before;
      assert forall ip :: ip in ips <==> ip in before || ip == last;
    }
  }

  lemma EvictStaleFacts(t: Table, cutoff: int)
    requires Wellformed(t)
    ensures Wellformed(EvictStale(t, cutoff)) && |EvictStale(t, cutoff).order| <= |t.order|
    ensures forall ip :: Times(EvictStale(t, cutoff), ip) == DropFront(Times(t, ip), cutoff)
  {
    PruneAllFacts(t, t.order, cutoff);
    forall ip | ip !in t.order ensures DropFront(Times(t, ip), cutoff) == [] {
      assert ip !in t.table;
    }
  }

  /** Stale eviction changes no answer, now or later. */
  lemma EvictionKeepsAnswers(t: Table, maxFailures: int, ip: string, cutoff: int, later: int)
    requires Wellformed(t) && cutoff <= later
    ensures Blocked(EvictStale(t, cutoff), maxFailures, ip, later) == Blocked(t, maxFailures, ip, later)
  {
    EvictStaleFacts(t, cutoff);
    DropFrontTwice(Times(t, ip), cutoff, later);
  }

  lemma {:induction false} DropFrontTwice(ts: seq<int>, earlier: int, later: int)
    requires earlier <= later
    ensures DropFront(DropFront(ts, earlier), later) == DropFront(ts, later)
  {
    if ts != [] && ts[0] <= earlier {
      DropFrontTwice(ts[1..], earlier, later);
    }
  }

  /** What making room can leave of the list of `ip`. */
  ghost predicate RoomTimes(t: Table, cutoff: int, ip: string, ts: seq<int>) {
    || ts == Times(t, ip)
    || ts == DropFront(Times(t, ip), cutoff)
    || (ts == [] && Overfull(t, cutoff) && ip == EvictStale(t, cutoff).order[0])
  }

  lemma MakeRoomFacts(t: Table, cutoff: int)
    requires Wellformed(t) && |t.order| <= MAX_TRACKED_IPS
    ensures Wellformed(MakeRoom(t, cutoff)) && |MakeRoom(t, cutoff).order| < MAX_TRACKED_IPS
    ensures forall ip :: RoomTimes(t, cutoff, ip, Times(MakeRoom(t, cutoff), ip))
  {
    hide PruneAll;
    EvictStaleFacts(t, cutoff);
    var evicted := EvictStale(t, cutoff);
    if Overfull(t, cutoff) {
      DeleteValid(evicted, evicted.order[0]);
    }
  }

  /** The effect of a call on the list of any address: one of these and nothing else. */
  ghost predicate TimesStep(ts: seq<int>, ts': seq<int>, windowMs: int, call: Call, ip: string, dropped: bool) {
    match call
    case Fail(x, now) =>
      if x == ip then ts' == ts + [now]
      else ts' == ts || ts' == DropFront(ts, now - windowMs) || (ts' == [] && dropped)
    case Query(x, now) => ts' == if x == ip then DropFront(ts, now - windowMs) else ts
    case Clear(x, _) => ts' == if x == ip then [] else ts
  }

  lemma StepTimes(t: Table, windowMs: int, call: Call, ip: string)
    requires Wellformed(t) && |t.order| <= MAX_TRACKED_IPS
    ensures Wellformed(Step(t, windowMs, call)) && |Step(t, windowMs, call).order| <= MAX_TRACKED_IPS
    ensures TimesStep(Times(t, ip), Times(Step(t, windowMs, call), ip), windowMs, call, ip, Drops(t, windowMs, call, ip))
  {
    hide EvictStale, Overfull, DropFront;
    var cutoff := call.now - windowMs;
    match call
    case Fail(x, now) =>
      MakeRoomFacts(t, cutoff);
      if x in t.table {
        SetValid(t, x, t.table[x] + [now]);
      } else {
        assert RoomTimes(t, cutoff, ip, Times(MakeRoom(t, cutoff), ip));
        hide MakeRoom;
        SetValid(MakeRoom(t, cutoff), x, [now]);
      }
    case Query(x, _) => PruneOneFacts(t, x, cutoff);
    case Clear(x, _) => DeleteValid(t, x);
  }

  // ----- The table against the log -----

  lemma {:induction false} TableBounded(windowMs: int, calls: seq<Call>, n: nat)
    requires n <= |calls|
    ensures Wellformed(After(windowMs, calls, n)) && |After(windowMs, calls, n).order| <= MAX_TRACKED_IPS
  {
    if n > 0 {
      hide Step;
      TableBounded(windowMs, calls, n - 1);
      StepTimes(After(windowMs, calls, n - 1), windowMs, calls[n - 1], "");
    }
  }

  lemma SuffixStep(ts: seq<int>, ts': seq<int>, log: seq<int>, windowMs: int, call: Call, ip: string, dropped: bool)
    requires SuffixOf(ts, log) && TimesStep(ts, ts', windowMs, call, ip, dropped)
    ensures SuffixOf(ts', LogStep(log, call, ip))
  {
    hide DropFront;
    var front := DropFront(ts, call.now - windowMs);
    DropFrontFacts(ts, call.now - windowMs);
    SuffixTrans(front, ts, log);
    assert (log + [call.now])[|log| - |ts|..] == log[|log| - |ts|..] + [call.now];
  }

  /** What is kept is the newest part of the log. */
  lemma {:induction false} TimesAreSuffix(windowMs: int, calls: seq<Call>, n: nat, ip: string)
    requires n <= |calls|
    ensures SuffixOf(Times(After(windowMs, calls, n), ip), Failures(calls, n, ip))
  {
    if n > 0 {
      hide Step, Drops, SuffixOf, Times, Wellformed, TimesStep, LogStep;
      var t, call := After(windowMs, calls, n - 1), calls[n - 1];
      TimesAreSuffix(windowMs, calls, n - 1, ip);
      TableBounded(windowMs, calls, n - 1);
      StepTimes(t, windowMs, call, ip);
      SuffixStep(Times(t, ip), Times(Step(t, windowMs, call), ip), Failures(calls, n - 1, ip),
        windowMs, call, ip, Drops(t, windowMs, call, ip));
    }
  }

  /** Below the cap a failure touches the list of its own address only. */
  lemma OthersKeptBelowCap(windowMs: int, calls: seq<Call>, n: nat, x: string, now: int, ip: string)
    requires n <= |calls| && |After(windowMs, calls, n).order| < MAX_TRACKED_IPS && ip != x
    ensures Times(Step(After(windowMs, calls, n), windowMs, Fail(x, now)), ip) == Times(After(windowMs, calls, n), ip)
  {
    hide After, EvictStale;
  }

  // ----- When an address is thrown out -----

  lemma {:induction false} DropFrontIsRecent(ts: seq<int>, cutoff: int)
    requires DropFront(ts, cutoff) != []
    ensures CountAfter(ts, cutoff) > 0
  {
    hide CountAfter, DropFront;
    DropFrontFacts(ts, cutoff);
    var kept := DropFront(ts, cutoff);
    assert ts == ts[..|ts| - |kept|] + kept;
    CountAppend(ts[..|ts| - |kept|], kept, cutoff);
    assert kept == [kept[0]] + kept[1..];
    CountAppend([kept[0]], kept[1..], cutoff);
    assert cutoff < kept[0] by { DropFrontFirst(ts, cutoff); }
    CountAll([kept[0]], cutoff);
  }

  lemma {:induction false} DropFrontFirst(ts: seq<int>, cutoff: int)
    requires DropFront(ts, cutoff) != []
    ensures cutoff < DropFront(ts, cutoff)[0]
  {
    if ts[0] <= cutoff {
      DropFrontFirst(ts[1..], cutoff);
    }
  }

  lemma SuffixCounts(ts: seq<int>, whole: seq<int>, cutoff: int)
    requires SuffixOf(ts, whole)
    ensures CountAfter(ts, cutoff) <= CountAfter(whole, cutoff)
  {
    hide CountAfter;
    assert whole == whole[..|whole| - |ts|] + ts;
    CountAppend(whole[..|whole| - |ts|], ts, cutoff);
  }

  lemma TrackedIsBusy(windowMs: int, calls: seq<Call>, n: nat, x: string, cutoff: int)
    requires n <= |calls| && x in EvictStale(After(windowMs, calls, n), cutoff).table
    ensures CountAfter(Failures(calls, n, x), cutoff) > 0
  {
    hide EvictStale, After, CountAfter, DropFront, Failures, SuffixOf;
    var t := After(windowMs, calls, n);
    TableBounded(windowMs, calls, n);
    EvictStaleFacts(t, cutoff);
    assert Times(EvictStale(t, cutoff), x) != [];
    DropFrontIsRecent(Times(t, x), cutoff);
    TimesAreSuffix(windowMs, calls, n, x);
    SuffixCounts(Times(t, x), Failures(calls, n, x), cutoff);
  }

  lemma {:induction false} UniqueCount(s: seq<string>)
    requires Unique(s)
    ensures |(set x | x in s)| == |s|
  {
    if s != [] {
      UniqueCount(s[1..]);
      assert s[0] !in s[1..];
      assert (set x | x in s) == {s[0]} + (set x | x in s[1..]);
    }
  }

  /**
    An address is thrown out only when the log is full: `MAX_TRACKED_IPS` addresses, it among them and the new
    one not, have failures within the window.
   */
  lemma DropNeedsFullLog(windowMs: int, calls: seq<Call>, n: nat, ip: string) returns (busy: set<string>)
    requires n < |calls| && Drops(After(windowMs, calls, n), windowMs, calls[n], ip)
    ensures |busy| == MAX_TRACKED_IPS && ip in busy && calls[n].ip !in busy
    ensures forall x :: x in busy ==> CountAfter(Failures(calls, n, x), calls[n].now - windowMs) > 0
  {
    hide EvictStale, After, CountAfter, Failures;
    var t := After(windowMs, calls, n);
    var evicted := EvictStale(t, calls[n].now - windowMs);
    TableBounded(windowMs, calls, n);
    EvictStaleFacts(t, calls[n].now - windowMs);
    busy := set x | x in evicted.order;
    UniqueCount(evicted.order);
    assert evicted.order[0] in evicted.order;
    forall x | x in busy ensures CountAfter(Failures(calls, n, x), calls[n].now - windowMs) > 0 && x in t.table {
      TrackedIsBusy(windowMs, calls, n, x, calls[n].now - windowMs);
      assert Times(evicted, x) != [] && DropFront(Times(t, x), calls[n].now - windowMs) != [];
    }
  }

  lemma {:induction false} LogSorted(calls: seq<Call>, n: nat, ip: string, now: int)
    requires n <= |calls| && Monotone(calls) && (n > 0 ==> calls[n - 1].now <= now)
    ensures Sorted(Failures(calls, n, ip))
    ensures forall i :: 0 <= i < |Failures(calls, n, ip)| ==> Failures(calls, n, ip)[i] <= now
  {
    if n > 0 {
      hide Monotone;
      LogSorted(calls, n - 1, ip, calls[n - 1].now);
    }
  }

  lemma CountStep(ts: seq<int>, ts': seq<int>, log: seq<int>, windowMs: int, call: Call, ip: string, dropped: bool, cutoff: int)
    requires TimesStep(ts, ts', windowMs, call, ip, dropped) && call.now - windowMs <= cutoff
    requires call == Clear(ip, call.now) || CountAfter(ts, cutoff) == CountAfter(log, cutoff)
    requires dropped ==> CountAfter(log, cutoff) == 0
    ensures CountAfter(ts', cutoff) == CountAfter(LogStep(log, call, ip), cutoff)
  {
    hide DropFront;
    DropFrontKeepsCount(ts, call.now - windowMs, cutoff);
    CountAppend(ts, [call.now], cutoff);
    CountAppend(log, [call.now], cutoff);
  }

  /** Counting after `cutoff` in the table and in the log gives the same, if no drop fell after `cutoff`. */
  lemma {:induction false} CountsAgree(windowMs: int, calls: seq<Call>, n: nat, ip: string, cutoff: int)
    requires n <= |calls| && Monotone(calls)
    requires n > 0 ==> calls[n - 1].now - windowMs <= cutoff
    requires Undropped(windowMs, calls, n, ip, cutoff)
    ensures CountAfter(Times(After(windowMs, calls, n), ip), cutoff) == CountAfter(Failures(calls, n, ip), cutoff)
  {
    if n > 0 {
      hide Step, Drops, CountAfter, Times, Wellformed, TimesStep, LogStep, Sorted;
      var t, call := After(windowMs, calls, n - 1), calls[n - 1];
      var log := Failures(calls, n - 1, ip);
      var dropped := Drops(t, windowMs, call, ip);
      TableBounded(windowMs, calls, n - 1);
      StepTimes(t, windowMs, call, ip);
      if call != Clear(ip, call.now) {
        CountsAgree(windowMs, calls, n - 1, ip, cutoff);
        if dropped {
          LogSorted(calls, n - 1, ip, call.now);
          CountNone(log, cutoff);
        }
        CountStep(Times(t, ip), Times(Step(t, windowMs, call), ip), log, windowMs, call, ip, dropped, cutoff);
      } else {
        CountStep(Times(t, ip), Times(Step(t, windowMs, call), ip), log, windowMs, call, ip, false, cutoff);
      }
    }
  }

  /** The answer the log gives: enough failures, and at least one, in the window. */
  predicate LogBlocks(maxFailures: int, windowMs: int, calls: seq<Call>, n: nat, ip: string, now: int)
    requires n <= |calls|
  {
    CountAfter(Failures(calls, n, ip), now - windowMs) >= (if maxFailures < 1 then 1 else maxFailures)
  }

  lemma TimesSorted(windowMs: int, calls: seq<Call>, n: nat, ip: string)
    requires n <= |calls| && Monotone(calls)
    ensures Sorted(Times(After(windowMs, calls, n), ip))
  {
    hide After, Failures, Times, Monotone;
    TimesAreSuffix(windowMs, calls, n, ip);
    LogSorted(calls, n, ip, if n > 0 then calls[n - 1].now else 0);
    var whole := Failures(calls, n, ip);
    var ts := Times(After(windowMs, calls, n), ip);
    assert forall i :: 0 <= i < |ts| ==> ts[i] == whole[|whole| - |ts| + i];
  }

  /** The limiter blocks exactly when the log does, unless the cap threw the address out within the window. */
  lemma BlocksLikeTheLog(maxFailures: int, windowMs: int, calls: seq<Call>, n: nat, ip: string, now: int)
    requires n <= |calls| && Monotone(calls) && (n > 0 ==> calls[n - 1].now <= now)
    requires Undropped(windowMs, calls, n, ip, now - windowMs)
    ensures Blocked(After(windowMs, calls, n), maxFailures, ip, now - windowMs)
        <==> LogBlocks(maxFailures, windowMs, calls, n, ip, now)
  {
    hide After, Failures, Undropped, CountAfter, DropFront, Times, Monotone;
    CountsAgree(windowMs, calls, n, ip, now - windowMs);
    TimesSorted(windowMs, calls, n, ip);
    DropFrontFacts(Times(After(windowMs, calls, n), ip), now - windowMs);
  }

  /** Whatever was thrown out, an address is never blocked unless the log blocks it. */
  lemma NeverOvercounts(maxFailures: int, windowMs: int, calls: seq<Call>, n: nat, ip: string, now: int)
    requires n <= |calls| && Monotone(calls)
    requires Blocked(After(windowMs, calls, n), maxFailures, ip, now - windowMs)
    ensures LogBlocks(maxFailures, windowMs, calls, n, ip, now)
  {
    hide After, Failures, CountAfter, DropFront, Times, Sorted, Monotone;
    var cutoff := now - windowMs;
    var ts, whole := Times(After(windowMs, calls, n), ip), Failures(calls, n, ip);
    TimesAreSuffix(windowMs, calls, n, ip);
    TimesSorted(windowMs, calls, n, ip);
    DropFrontFacts(ts, cutoff);
    assert whole == whole[..|whole| - |ts|] + ts;
    CountAppend(whole[..|whole| - |ts|], ts, cutoff);
  }

  // ----- The object -----

  class AuthRateLimiter {
    const maxFailures: int
    const windowMs: int
    var failures: Table

    ghost predicate Valid()
      reads this
    {
      Wellformed(failures)
    }

    constructor (maxFailures: int, windowMs: int)
      ensures Valid() && failures == Empty()
      ensures this.maxFailures == maxFailures && this.windowMs == windowMs
    {
      this.maxFailures := maxFailures;
      this.windowMs := windowMs;
      failures := Empty();
    }

    method RecordFailure(ip: string, now: int)
      requires Valid() && |failures.order| <= MAX_TRACKED_IPS
      modifies this
      ensures Valid() && |failures.order| <= MAX_TRACKED_IPS
      ensures failures == Step(old(failures), windowMs, Fail(ip, now))
    {
      hide EvictStale, Wellformed, Overfull;
      StepTimes(failures, windowMs, Fail(ip, now), ip);
      var timestamps: seq<int> := [];
      if ip in failures.table {
        timestamps := failures.table[ip];
      } else {
        ClearSpace(now);
      }
      failures := failures.Set(ip, timestamps + [now]);
    }

    method ClearSpace(now: int)
      requires Valid() && |failures.order| <= MAX_TRACKED_IPS
      modifies this
      ensures Valid() && failures == MakeRoom(old(failures), now - windowMs)
    {
      hide PruneAll;
      MakeRoomFacts(failures, now - windowMs);
      if |failures.order| >= MAX_TRACKED_IPS {
        EvictStaleEntries(now);
        if |failures.order| >= MAX_TRACKED_IPS {
          failures := failures.Delete(failures.order[0]);
        }
      }
    }

    method IsBlocked(ip: string, now: int) returns (blocked: bool)
      requires Valid()
      modifies this
      ensures Valid() && failures == Step(old(failures), windowMs, Query(ip, now))
      ensures blocked == Blocked(old(failures), maxFailures, ip, now - windowMs)
    {
      PruneOneFacts(failures, ip, now - windowMs);
      if ip !in failures.table {
        return false;
      }
      var timestamps := ShiftExpired(failures.table[ip], now - windowMs);
      if timestamps == [] {
        failures := failures.Delete(ip);
        return false;
      }
      failures := failures.Set(ip, timestamps);
      return |timestamps| >= maxFailures;
    }

    method ClearIp(ip: string)
      requires Valid()
      modifies this
      ensures Valid() && forall now :: failures == Step(old(failures), windowMs, Clear(ip, now))
    {
      DeleteValid(failures, ip);
      failures := failures.Delete(ip);
    }

    method EvictStaleEntries(now: int)
      requires Valid()
      modifies this
      ensures Valid() && failures == EvictStale(old(failures), now - windowMs)
    {
      var cutoff := now - windowMs;
      var ips := failures.order;
      ghost var was := failures;
      for n := 0 to |ips|
        invariant Valid() && failures == PruneAll(was, ips[..n], cutoff)
      {
        PruneAllFacts(was, ips[..n], cutoff);
        UntouchedStays(was, ips, n, cutoff);
        PruneOneFacts(failures, ips[n], cutoff);
        assert ips[..n + 1][..n] == ips[..n];
        var timestamps := ShiftExpired(failures.table[ips[n]], cutoff);
        failures := if timestamps == [] then failures.Delete(ips[n]) else failures.Set(ips[n], timestamps);
      }
      assert ips[..|ips|] == ips;
    }
  }

  lemma UntouchedStays(t: Table, ips: seq<string>, n: nat, cutoff: int)
    requires Wellformed(t) && ips == t.order && n < |ips|
    ensures ips[n] in PruneAll(t, ips[..n], cutoff).table
  {
    PruneAllFacts(t, ips[..n], cutoff);
    assert ips[n] !in ips[..n] && ips[n] in t.table;
    assert Times(PruneAll(t, ips[..n], cutoff), ips[n]) == t.table[ips[n]];
  }

  /** The loop that shifts expired times off the front of a list. */
  method ShiftExpired(ts: seq<int>, cutoff: int) returns (rest: seq<int>)
    ensures rest == DropFront(ts, cutoff)
  {
    rest := ts;
    while rest != [] && rest[0] <= cutoff
      invariant DropFront(rest, cutoff) == DropFront(ts, cutoff)
    {
      rest := rest[1..];
    }
  }
}
