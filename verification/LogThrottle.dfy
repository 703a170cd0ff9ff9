/**
  The log throttle of the legacy-auth fallback: one line per key and cooldown window, with a bounded table.
 */
module LogThrottle {
  import opened JsMaps

  const MAX_TRACKED_KEYS: nat := 10_000

  type Table = JsMap<string, int>

  /** A call of `shouldLog`. */
  datatype Call = Call(key: string, now: int)

  // ----- One call -----

  function FreshKeys(t: Table, cooldownMs: int, now: int): set<string> {
    set k | k in t.table && now - t.table[k] < cooldownMs
  }

  /** Insert `k` before the first key with a later time: one step of a stable sort. */
  function InsertByTime(k: string, sorted: seq<string>, times: map<string, int>): seq<string>
    requires k in times && forall x :: x in sorted ==> x in times
  {
    if sorted == [] then [k]
    else if times[k] <= times[sorted[0]] then [k] + sorted
    else [sorted[0]] + InsertByTime(k, sorted[1..], times)
  }

  /** The keys sorted by time, ties in their original order. */
  function SortByTime(keys: seq<string>, times: map<string, int>): (sorted: seq<string>)
    requires forall x :: x in keys ==> x in times
    ensures multiset(sorted) == multiset(keys)
    ensures |sorted| == |keys|
    ensures forall x :: x in sorted ==> x in times
  {
    if keys == [] then []
    else
      var rest := SortByTime(keys[1..], times);
      InsertKeeps(keys[0], rest, times);
      assert keys == [keys[0]] + keys[1..];
      InsertByTime(keys[0], rest, times)
  }

  lemma {:induction false} InsertKeeps(k: string, sorted: seq<string>, times: map<string, int>)
    requires k in times && forall x :: x in sorted ==> x in times
    ensures multiset(InsertByTime(k, sorted, times)) == multiset(sorted) + multiset{k}
    ensures |InsertByTime(k, sorted, times)| == |sorted| + 1
    ensures forall x :: x in InsertByTime(k, sorted, times) ==> x in times
  {
    if sorted != [] {
      assert sorted == [sorted[0]] + sorted[1..];
      InsertKeeps(k, sorted[1..], times);
    }
  }

  /** Drop the oldest keys until one more fits. */
  function DropOldest(t: Table): Table
    requires t.Valid()
  {
    if |t.order| < MAX_TRACKED_KEYS then t
    else
      var dropped := SortByTime(t.order, t.table)[..|t.order| - MAX_TRACKED_KEYS + 1];
      t.Restrict(Without(t, dropped))
  }

  function Without(t: Table, dropped: seq<string>): set<string> {
    set k | k in t.table && k !in dropped
  }

  function ShouldLog(t: Table, cooldownMs: int, call: Call): bool {
    call.key !in t.table || call.now - t.table[call.key] >= cooldownMs
  }

  function Purge(t: Table, cooldownMs: int, now: int): Table {
    if |t.order| < MAX_TRACKED_KEYS then t else t.Restrict(FreshKeys(t, cooldownMs, now))
  }

  /** What is left of the table before the hard cap: the key's own entry is gone, expired ones when full. */
  function Cleared(t: Table, cooldownMs: int, call: Call): (cleared: Table)
    requires t.Valid()
    ensures cleared.Valid() && call.key !in cleared.table
    ensures cleared.table.Keys <= t.table.Keys
    ensures forall k :: k in cleared.table ==> cleared.table[k] == t.table[k]
  {
    DeleteValid(t, call.key);
    var deleted := t.Delete(call.key);
    RestrictValid(deleted, FreshKeys(deleted, cooldownMs, call.now));
    Purge(deleted, cooldownMs, call.now)
  }

  function Step(t: Table, cooldownMs: int, call: Call): (t': Table)
    requires t.Valid()
    ensures t'.Valid()
  {
    if !ShouldLog(t, cooldownMs, call) then t
    else
      var cleared := Cleared(t, cooldownMs, call);
      DropOldestValid(cleared);
      DropOldest(cleared).Set(call.key, call.now)
  }

  lemma DropOldestValid(t: Table)
    requires t.Valid()
    ensures DropOldest(t).Valid()
  {
    if |t.order| >= MAX_TRACKED_KEYS {
      var dropped := SortByTime(t.order, t.table)[..|t.order| - MAX_TRACKED_KEYS + 1];
      RestrictValid(t, Without(t, dropped));
    }
  }

  // ----- Runs -----

  /** The table after the first `n` calls. */
  function After(cooldownMs: int, calls: seq<Call>, n: nat): (t: Table)
    requires n <= |calls|
    ensures t.Valid()
  {
    if n == 0 then Empty() else Step(After(cooldownMs, calls, n - 1), cooldownMs, calls[n - 1])
  }

  /** The answer to call `i`. */
  predicate Logged(cooldownMs: int, calls: seq<Call>, i: nat)
    requires i < |calls|
  {
    ShouldLog(After(cooldownMs, calls, i), cooldownMs, calls[i])
  }

  /** The keys told to log by the calls from `i` up to `n`. */
  function LoggedKeys(cooldownMs: int, calls: seq<Call>, i: nat, n: nat): set<string>
    requires i <= n <= |calls|
  {
    if n == i then {}
    else LoggedKeys(cooldownMs, calls, i, n - 1) + if Logged(cooldownMs, calls, n - 1) then {calls[n - 1].key} else {}
  }

  /** The clock does not run backwards. */
  ghost predicate Monotone(calls: seq<Call>) {
    forall i, j :: 0 <= i < j < |calls| ==> calls[i].now <= calls[j].now
  }

  // ----- The table stays small and sorted -----

  ghost predicate InTimeOrder(keys: seq<string>, times: map<string, int>) {
    && (forall x :: x in keys ==> x in times)
    && forall i, j :: 0 <= i < j < |keys| ==> times[keys[i]] <= times[keys[j]]
  }

  lemma {:induction false} SortedStays(keys: seq<string>, times: map<string, int>)
    requires InTimeOrder(keys, times)
    ensures SortByTime(keys, times) == keys
  {
    if keys != [] {
      assert keys == [keys[0]] + keys[1..];
      SortedStays(keys[1..], times);
    }
  }

  lemma ConsInTimeOrder(k: string, rest: seq<string>, times: map<string, int>)
    requires k in times && InTimeOrder(rest, times)
    requires forall x :: x in rest ==> times[k] <= times[x]
    ensures InTimeOrder([k] + rest, times)
  {
  }

  lemma TailInTimeOrder(keys: seq<string>, times: map<string, int>)
    requires keys != [] && InTimeOrder(keys, times)
    ensures InTimeOrder(keys[1..], times) && keys[0] in times
    ensures forall x :: x in keys[1..] ==> x in times && times[keys[0]] <= times[x]
  {
    assert keys[0] in keys;
  }

  lemma {:induction false} InsertInTimeOrder(k: string, sorted: seq<string>, times: map<string, int>)
    requires k in times && InTimeOrder(sorted, times)
    ensures InTimeOrder(InsertByTime(k, sorted, times), times)
  {
    if sorted == [] {
    } else if times[sorted[0]] < times[k] {
      hide InTimeOrder;
      TailInTimeOrder(sorted, times);
      InsertInTimeOrder(k, sorted[1..], times);
      InsertKeeps(k, sorted[1..], times);
      var rest := InsertByTime(k, sorted[1..], times);
      forall x | x in rest ensures times[sorted[0]] <= times[x] {
        assert x in multiset(rest);
        assert x == k || x in sorted[1..];
      }
      ConsInTimeOrder(sorted[0], rest, times);
    } else {
      hide InTimeOrder;
      TailInTimeOrder(sorted, times);
      assert sorted == [sorted[0]] + sorted[1..];
      ConsInTimeOrder(k, sorted, times);
    }
  }

  /** Whatever the table's order, the sort puts the oldest entries first. */
  lemma {:induction false} SortIsInTimeOrder(keys: seq<string>, times: map<string, int>)
    requires forall x :: x in keys ==> x in times
    ensures InTimeOrder(SortByTime(keys, times), times)
    ensures multiset(SortByTime(keys, times)) == multiset(keys)
  {
    if keys != [] {
      SortIsInTimeOrder(keys[1..], times);
      InsertInTimeOrder(keys[0], SortByTime(keys[1..], times), times);
    }
  }

  lemma {:induction false} KeepInTimeOrder(keys: seq<string>, times: map<string, int>, live: set<string>)
    requires InTimeOrder(keys, times)
    ensures InTimeOrder(Keep(keys, live), times)
  {
    if keys != [] {
      hide InTimeOrder;
      TailInTimeOrder(keys, times);
      KeepInTimeOrder(keys[1..], times, live);
      KeepMembers(keys[1..], live);
      ConsInTimeOrder(keys[0], Keep(keys[1..], live), times);
    }
  }

  /** Insertion order is time order and no entry is from the future of `now`. */
  ghost predicate Sorted(t: Table, now: int) {
    && t.Valid()
    && InTimeOrder(t.order, t.table)
    && forall k :: k in t.table ==> t.table[k] <= now
  }

  lemma RestrictSorted(t: Table, live: set<string>, now: int)
    requires Sorted(t, now)
    ensures Sorted(t.Restrict(live), now)
  {
    RestrictValid(t, live);
    KeepInTimeOrder(t.order, t.table, live);
    KeepMembers(t.order, live);
  }

  /** On a sorted table at its limit the hard cap removes the one oldest entry. */
  lemma DropOldestIsHead(t: Table, now: int)
    requires Sorted(t, now) && |t.order| <= MAX_TRACKED_KEYS
    ensures |t.order| == MAX_TRACKED_KEYS ==> DropOldest(t) == t.Delete(t.order[0])
    ensures Sorted(DropOldest(t), now) && |DropOldest(t).order| < MAX_TRACKED_KEYS
  {
    hide SortByTime, InTimeOrder;
    if |t.order| == MAX_TRACKED_KEYS {
      SortedStays(t.order, t.table);
      assert t.order[..1] == [t.order[0]];
      assert Without(t, t.order[..1]) == t.table.Keys - {t.order[0]};
      DeleteValid(t, t.order[0]);
      RestrictSorted(t, t.table.Keys - {t.order[0]}, now);
    }
  }

  lemma SetSorted(t: Table, k: string, now: int)
    requires Sorted(t, now) && k !in t.table
    ensures Sorted(t.Set(k, now), now)
  {
  }

  lemma ClearedSorted(t: Table, cooldownMs: int, call: Call)
    requires Sorted(t, call.now) && |t.order| <= MAX_TRACKED_KEYS
    ensures Sorted(Cleared(t, cooldownMs, call), call.now) && |Cleared(t, cooldownMs, call).order| <= MAX_TRACKED_KEYS
  {
    DeleteValid(t, call.key);
    RestrictSorted(t, t.table.Keys - {call.key}, call.now);
    var deleted := t.Delete(call.key);
    RestrictValid(deleted, FreshKeys(deleted, cooldownMs, call.now));
    RestrictSorted(deleted, FreshKeys(deleted, cooldownMs, call.now), call.now);
  }

  lemma StepSorted(t: Table, cooldownMs: int, call: Call)
    requires Sorted(t, call.now) && |t.order| <= MAX_TRACKED_KEYS
    ensures Sorted(Step(t, cooldownMs, call), call.now) && |Step(t, cooldownMs, call).order| <= MAX_TRACKED_KEYS
  {
    hide Cleared, DropOldest;
    ClearedSorted(t, cooldownMs, call);
    var cleared := Cleared(t, cooldownMs, call);
    DropOldestIsHead(cleared, call.now);
    DropOldestShrinks(cleared);
    if ShouldLog(t, cooldownMs, call) {
      SetSorted(DropOldest(cleared), call.key, call.now);
    }
  }

  /** In every run the table keeps within its cap, and its insertion order is its time order. */
  lemma {:induction false} TableBoundedAndSorted(cooldownMs: int, calls: seq<Call>, n: nat, now: int)
    requires n <= |calls| && Monotone(calls)
    requires forall i :: 0 <= i < n ==> calls[i].now <= now
    ensures |After(cooldownMs, calls, n).order| <= MAX_TRACKED_KEYS
    ensures Sorted(After(cooldownMs, calls, n), now)
  {
    hide Step, ShouldLog;
    if n > 0 {
      TableBoundedAndSorted(cooldownMs, calls, n - 1, calls[n - 1].now);
      StepSorted(After(cooldownMs, calls, n - 1), cooldownMs, calls[n - 1]);
    }
  }

  // ----- The throttle bound -----

  /** `k` is still remembered with time `at`, and every key behind it was logged since. */
  ghost predicate Remembered(t: Table, k: string, at: int, since: set<string>) {
    && t.Valid() && k in t.table && t.table[k] == at
    && forall x :: x in Later(t.order, k) ==> x in since
  }

  lemma RestrictRemembers(t: Table, live: set<string>, k: string, at: int, since: set<string>)
    requires Remembered(t, k, at, since) && k in live
    ensures Remembered(t.Restrict(live), k, at, since)
  {
    RestrictValid(t, live);
    LaterKeep(t.order, live, k);
    KeepMembers(Later(t.order, k), live);
  }

  lemma {:induction false} DistinctWithin(s: seq<string>, within: set<string>)
    requires Unique(s) && forall x :: x in s ==> x in within
    ensures |s| <= |within|
  {
    if s != [] {
      assert s[0] in within;
      assert forall x :: x in s[1..] ==> x in s && x != s[0];
      DistinctWithin(s[1..], within - {s[0]});
    }
  }

  /** Only the hard cap forgets a live key, and then every other slot was filled since. */
  lemma DropRemembers(t: Table, k: string, at: int, since: set<string>, now: int)
    requires Sorted(t, now) && |t.order| <= MAX_TRACKED_KEYS && Remembered(t, k, at, since)
    ensures Remembered(DropOldest(t), k, at, since) || MAX_TRACKED_KEYS - 1 <= |since * t.table.Keys - {k}|
  {
    DropOldestIsHead(t, now);
    if |t.order| == MAX_TRACKED_KEYS {
      if t.order[0] != k {
        RestrictRemembers(t, t.table.Keys - {t.order[0]}, k, at, since);
      } else {
        LaterMembers(t.order, k);
        DistinctWithin(t.order[1..], since * t.table.Keys - {k});
      }
    }
  }

  lemma ClearedRemembers(t: Table, cooldownMs: int, call: Call, k: string, at: int, since: set<string>)
    requires Remembered(t, k, at, since) && call.now - at < cooldownMs && call.key != k
    ensures Remembered(Cleared(t, cooldownMs, call), k, at, since)
  {
    RestrictRemembers(t, t.table.Keys - {call.key}, k, at, since);
    var deleted := t.Delete(call.key);
    if |deleted.order| >= MAX_TRACKED_KEYS {
      RestrictRemembers(deleted, FreshKeys(deleted, cooldownMs, call.now), k, at, since);
    }
  }

  lemma SetRemembers(t: Table, x: string, now: int, k: string, at: int, since: set<string>)
    requires Remembered(t, k, at, since) && x !in t.table
    ensures Remembered(t.Set(x, now), k, at, since + {x})
  {
    assert k in t.order;
    LaterAppend(t.order, [x], k);
  }

  lemma StepRemembers(t: Table, cooldownMs: int, call: Call, k: string, at: int, since: set<string>)
    requires Sorted(t, call.now) && |t.order| <= MAX_TRACKED_KEYS
    requires Remembered(t, k, at, since) && call.now - at < cooldownMs
    requires ShouldLog(t, cooldownMs, call)
    ensures Remembered(Step(t, cooldownMs, call), k, at, since + {call.key})
         || MAX_TRACKED_KEYS <= |since + {call.key} - {k}|
  {
    hide Cleared, DropOldest;
    var cleared := Cleared(t, cooldownMs, call);
    ClearedRemembers(t, cooldownMs, call, k, at, since);
    ClearedSorted(t, cooldownMs, call);
    DropRemembers(cleared, k, at, since, call.now);
    if Remembered(DropOldest(cleared), k, at, since) {
      DropOldestShrinks(cleared);
      SetRemembers(DropOldest(cleared), call.key, call.now, k, at, since);
    } else {
      GrowsBy(since * cleared.table.Keys - {k}, call.key, since + {call.key} - {k});
    }
  }

  lemma DropOldestShrinks(t: Table)
    requires t.Valid()
    ensures DropOldest(t).table.Keys <= t.table.Keys
    ensures forall k :: k in DropOldest(t).table ==> DropOldest(t).table[k] == t.table[k]
  {
    if |t.order| >= MAX_TRACKED_KEYS {
      var dropped := SortByTime(t.order, t.table)[..|t.order| - MAX_TRACKED_KEYS + 1];
      RestrictValid(t, Without(t, dropped));
    }
  }

  lemma NeverShrinks(a: set<string>, x: string, k: string)
    ensures |a - {k}| <= |a + {x} - {k}|
  {
    assert a + {x} - {k} == (a - {k}) + ({x} - {k} - a);
  }

  lemma GrowsBy(a: set<string>, x: string, b: set<string>)
    requires x !in a && a + {x} <= b
    ensures |a| + 1 <= |b|
  {
    assert b == (a + {x}) + (b - (a + {x}));
  }

  lemma LoggedIsRemembered(t: Table, cooldownMs: int, call: Call)
    requires Sorted(t, call.now) && |t.order| <= MAX_TRACKED_KEYS && ShouldLog(t, cooldownMs, call)
    ensures Remembered(Step(t, cooldownMs, call), call.key, call.now, {})
  {
    hide Cleared, DropOldest;
    ClearedSorted(t, cooldownMs, call);
    var cleared := Cleared(t, cooldownMs, call);
    DropOldestShrinks(cleared);
    DropOldestIsHead(cleared, call.now);
    LaterEnd(DropOldest(cleared).order, call.key);
  }

  /** From the line logged by call `i` on: it is remembered, or enough other keys were logged since. */
  lemma {:induction false} RememberedUntil(cooldownMs: int, calls: seq<Call>, i: nat, n: nat)
    requires Monotone(calls) && i < n < |calls|
    requires Logged(cooldownMs, calls, i) && calls[n].now - calls[i].now < cooldownMs
    ensures var since := LoggedKeys(cooldownMs, calls, i + 1, n);
      || Remembered(After(cooldownMs, calls, n), calls[i].key, calls[i].now, since)
      || MAX_TRACKED_KEYS <= |since - {calls[i].key}|
    decreases n
  {
    hide *;
    var k, at := calls[i].key, calls[i].now;
    if n == i + 1 {
      RememberedFirst(cooldownMs, calls, i);
    } else {
      EarlierInTime(calls, n - 1, n);
      RememberedUntil(cooldownMs, calls, i, n - 1);
      RememberedStep(cooldownMs, calls, i, n, k, at);
    }
  }

  lemma EarlierInTime(calls: seq<Call>, i: nat, j: nat)
    requires Monotone(calls) && i < j < |calls|
    ensures calls[i].now <= calls[j].now
  {
  }

  lemma RememberedFirst(cooldownMs: int, calls: seq<Call>, i: nat)
    requires Monotone(calls) && i + 1 < |calls| && Logged(cooldownMs, calls, i)
    ensures Remembered(After(cooldownMs, calls, i + 1), calls[i].key, calls[i].now, LoggedKeys(cooldownMs, calls, i + 1, i + 1))
  {
    hide Step, ShouldLog, Remembered, Sorted;
    TableBoundedAndSorted(cooldownMs, calls, i, calls[i].now);
    LoggedIsRemembered(After(cooldownMs, calls, i), cooldownMs, calls[i]);
  }

  lemma SuppressedKeepsTable(t: Table, cooldownMs: int, call: Call)
    requires t.Valid() && !ShouldLog(t, cooldownMs, call)
    ensures Step(t, cooldownMs, call) == t
  {
  }

  lemma RememberedStep(cooldownMs: int, calls: seq<Call>, i: nat, n: nat, k: string, at: int)
    requires Monotone(calls) && i + 1 < n < |calls| && calls[n].now - at < cooldownMs
    requires var since := LoggedKeys(cooldownMs, calls, i + 1, n - 1);
      Remembered(After(cooldownMs, calls, n - 1), k, at, since) || MAX_TRACKED_KEYS <= |since - {k}|
    ensures var since := LoggedKeys(cooldownMs, calls, i + 1, n);
      Remembered(After(cooldownMs, calls, n), k, at, since) || MAX_TRACKED_KEYS <= |since - {k}|
  {
    hide Step, ShouldLog, Remembered, Sorted;
    var t, call := After(cooldownMs, calls, n - 1), calls[n - 1];
    var since := LoggedKeys(cooldownMs, calls, i + 1, n - 1);
    if Logged(cooldownMs, calls, n - 1) {
      if Remembered(t, k, at, since) {
        TableBoundedAndSorted(cooldownMs, calls, n - 1, call.now);
        StepRemembers(t, cooldownMs, call, k, at, since);
      } else {
        NeverShrinks(since, call.key, k);
      }
    } else {
      SuppressedKeepsTable(t, cooldownMs, call);
    }
  }

  /**
    Two lines for one key less than a cooldown apart mean that at least MAX_TRACKED_KEYS distinct other keys
    were logged in between.
   */
  lemma RepeatNeedsFlood(cooldownMs: int, calls: seq<Call>, i: nat, j: nat)
    requires Monotone(calls) && i < j < |calls| && calls[i].key == calls[j].key
    requires Logged(cooldownMs, calls, i) && Logged(cooldownMs, calls, j)
    requires calls[j].now - calls[i].now < cooldownMs
    ensures MAX_TRACKED_KEYS <= |LoggedKeys(cooldownMs, calls, i + 1, j) - {calls[i].key}|
  {
    RememberedUntil(cooldownMs, calls, i, j);
  }

  predicate LineAt(cooldownMs: int, calls: seq<Call>, i: nat, call: Call) {
    i < |calls| && calls[i] == call && Logged(cooldownMs, calls, i)
  }

  /** What is in the table was logged at the time it says. */
  lemma {:induction false} EntriesWereLogged(cooldownMs: int, calls: seq<Call>, n: nat, k: string)
    requires n <= |calls| && k in After(cooldownMs, calls, n).table
    ensures exists i: nat :: i < n && LineAt(cooldownMs, calls, i, Call(k, After(cooldownMs, calls, n).table[k]))
    decreases n
  {
    hide Cleared, DropOldest;
    var t := After(cooldownMs, calls, n - 1);
    var call := calls[n - 1];
    assert After(cooldownMs, calls, n) == Step(t, cooldownMs, call);
    if ShouldLog(t, cooldownMs, call) && call.key == k {
      assert LineAt(cooldownMs, calls, n - 1, call);
    } else {
      StepKeepsOrDrops(t, cooldownMs, call, k);
      EntriesWereLogged(cooldownMs, calls, n - 1, k);
    }
  }

  lemma StepKeepsOrDrops(t: Table, cooldownMs: int, call: Call, k: string)
    requires t.Valid() && (k != call.key || !ShouldLog(t, cooldownMs, call)) && k in Step(t, cooldownMs, call).table
    ensures k in t.table && Step(t, cooldownMs, call).table[k] == t.table[k]
  {
    hide Cleared, DropOldest;
    DropOldestShrinks(Cleared(t, cooldownMs, call));
  }

  /** A suppressed line always has a line for the same key less than a cooldown before it. */
  lemma SuppressedHasRecentLine(cooldownMs: int, calls: seq<Call>, j: nat)
    requires j < |calls| && !Logged(cooldownMs, calls, j)
    ensures exists i: nat, at: int ::
      i < j && LineAt(cooldownMs, calls, i, Call(calls[j].key, at)) && calls[j].now - at < cooldownMs
  {
    EntriesWereLogged(cooldownMs, calls, j, calls[j].key);
  }

  // ----- What a logged line leaves -----

  /** How many other keys are remembered. */
  function Others(t: Table, key: string): int {
    |t.order| - if key in t.table then 1 else 0
  }

  /**
    A logged line is remembered at its time. With fewer than `MAX_TRACKED_KEYS` other keys nothing else changes;
    with as many, no key past its cooldown stays.
   */
  lemma StaleArePurged(cooldownMs: int, calls: seq<Call>, n: nat)
    requires n < |calls| && Logged(cooldownMs, calls, n)
    ensures var t, d, call := After(cooldownMs, calls, n), After(cooldownMs, calls, n + 1), calls[n];
      && (Others(t, call.key) < MAX_TRACKED_KEYS ==> d.table == t.table[call.key := call.now])
      && (Others(t, call.key) >= MAX_TRACKED_KEYS ==>
            forall k :: k in d.table ==> k == call.key || call.now - d.table[k] < cooldownMs)
      && call.key in d.table && d.table[call.key] == call.now
  {
    hide After, SortByTime, JsMap.Delete, JsMap.Restrict, Without;
    var t, call := After(cooldownMs, calls, n), calls[n];
    var deleted := t.Delete(call.key);
    DeleteValid(t, call.key);
    RestrictValid(deleted, FreshKeys(deleted, cooldownMs, call.now));
    var cleared := Cleared(t, cooldownMs, call);
    DropShrinks(cleared);
    assert After(cooldownMs, calls, n + 1) == Step(t, cooldownMs, call) by { AfterStep(cooldownMs, calls, n); }
  }

  lemma AfterStep(cooldownMs: int, calls: seq<Call>, n: nat)
    requires n < |calls|
    ensures After(cooldownMs, calls, n + 1) == Step(After(cooldownMs, calls, n), cooldownMs, calls[n])
  {
    hide Step;
  }

  lemma DropShrinks(t: Table)
    requires t.Valid()
    ensures forall k :: k in DropOldest(t).table ==> k in t.table && DropOldest(t).table[k] == t.table[k]
    ensures |t.order| < MAX_TRACKED_KEYS ==> DropOldest(t) == t
  {
    hide SortByTime;
    if |t.order| >= MAX_TRACKED_KEYS {
      var dropped := SortByTime(t.order, t.table)[..|t.order| - MAX_TRACKED_KEYS + 1];
      RestrictValid(t, Without(t, dropped));
    }
  }

  // ----- The object -----

  class AuthFallbackLogThrottle {
    const cooldownMs: int
    var lastLogged: Table

    constructor (cooldownMs: int)
      ensures this.cooldownMs == cooldownMs && lastLogged == Empty()
    {
      this.cooldownMs := cooldownMs;
      lastLogged := Empty();
    }

    method ShouldLogNow(key: string, now: int) returns (answer: bool)
      requires lastLogged.Valid()
      modifies this
      ensures lastLogged.Valid()
      ensures lastLogged == Step(old(lastLogged), cooldownMs, Call(key, now))
      ensures answer == ShouldLog(old(lastLogged), cooldownMs, Call(key, now))
    {
      DeleteValid(lastLogged, key);
      if key in lastLogged.table {
        if now - lastLogged.table[key] < cooldownMs {
          return false;
        }
        lastLogged := lastLogged.Delete(key);
      }
      MakeRoom(now);
      assert lastLogged == DropOldest(Cleared(old(lastLogged), cooldownMs, Call(key, now)));
      lastLogged := lastLogged.Set(key, now);
      return true;
    }

    /** The safety valve: purge in bulk, then hard-cap. */
    method MakeRoom(now: int)
      requires lastLogged.Valid()
      modifies this
      ensures lastLogged.Valid() && Purge(old(lastLogged), cooldownMs, now).Valid()
      ensures lastLogged == DropOldest(Purge(old(lastLogged), cooldownMs, now))
    {
      if |lastLogged.order| >= MAX_TRACKED_KEYS {
        PurgeExpired(now);
        if |lastLogged.order| >= MAX_TRACKED_KEYS {
          RemoveOldest();
        }
      }
    }

    method PurgeExpired(now: int)
      requires lastLogged.Valid()
      modifies this
      ensures lastLogged.Valid()
      ensures lastLogged == old(lastLogged).Restrict(FreshKeys(old(lastLogged), cooldownMs, now))
    {
      var keys := lastLogged.order;
      ghost var was := lastLogged;
      ghost var live := FreshKeys(was, cooldownMs, now);
      ghost var kept := was.table.Keys;
      WalkStart(was, live);
      for n := 0 to |keys|
        invariant lastLogged == was.Restrict(kept) && WalkedTo(was, live, kept, n)
      {
        WalkStep(was, live, kept, n);
        if now - lastLogged.table[keys[n]] >= cooldownMs {
          lastLogged := lastLogged.Delete(keys[n]);
          kept := kept - {keys[n]};
        }
      }
      WalkDone(was, live, kept);
    }

    method RemoveOldest()
      requires lastLogged.Valid() && |lastLogged.order| >= MAX_TRACKED_KEYS
      modifies this
      ensures lastLogged.Valid() && lastLogged == DropOldest(old(lastLogged))
    {
      hide SortByTime, Without, JsMap.Restrict, JsMap.Delete;
      var sorted := SortByTime(lastLogged.order, lastLogged.table);
      var toRemove := |sorted| - MAX_TRACKED_KEYS + 1;
      ghost var was := lastLogged;
      NoneRemoved(was, sorted);
      for i := 0 to toRemove
        invariant lastLogged == was.Restrict(Without(was, sorted[..i]))
      {
        OneRemoved(was, sorted, i);
        lastLogged := lastLogged.Delete(sorted[i]);
      }
      DropOldestValid(was);
    }
  }

  lemma NoneRemoved(t: Table, sorted: seq<string>)
    requires t.Valid()
    ensures t.Restrict(Without(t, sorted[..0])) == t
  {
    assert Without(t, sorted[..0]) == t.table.Keys;
    RestrictAll(t, t.table.Keys);
  }

  lemma OneRemoved(t: Table, sorted: seq<string>, i: nat)
    requires t.Valid() && i < |sorted|
    ensures t.Restrict(Without(t, sorted[..i])).Delete(sorted[i]) == t.Restrict(Without(t, sorted[..i + 1]))
  {
    assert sorted[..i + 1] == sorted[..i] + [sorted[i]];
    assert Without(t, sorted[..i + 1]) == Without(t, sorted[..i]) - {sorted[i]};
    RestrictDelete(t, Without(t, sorted[..i]), sorted[i]);
  }
}
