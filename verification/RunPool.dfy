/**
  The pool that runs a worker over a list of items, at most `concurrency` at a time. Every runner claims the
  next index, calls the worker and waits; any waiting call may be the next to settle.
 */
module RunPools {
  import opened Options

  /** How the worker's promise for one item settles. */
  datatype Outcome<+R> = Value(result: R) | Failure

  /**
    `flights[k]` is the index runner `k` waits for; None once the runner has ended. `calls` is the history of
    the indices the worker was called with. `failed` says that a call failed, which ends its runner and
    rejects the pool while the other runners go on.
   */
  datatype Pool<R> = Pool(next: nat, flights: seq<Option<nat>>, results: seq<Option<R>>, calls: seq<nat>, failed: bool)

  /** A call of runner `runner` settles. */
  datatype Op<+R> = Settle(runner: nat, outcome: Outcome<R>)

  function Min(a: nat, b: nat): nat {
    if a < b then a else b
  }

  /** The length of the array of runners: none for a concurrency below one. */
  function Width(concurrency: int, n: nat): nat {
    if concurrency < 0 then 0 else Min(concurrency, n)
  }

  function Nothing<R>(n: nat): (r: seq<Option<R>>)
    ensures |r| == n && forall i :: 0 <= i < n ==> r[i] == None
  {
    if n == 0 then [] else Nothing(n - 1) + [None]
  }

  /** Runner `k` takes the next index, or ends when there is none. */
  function Claim<R>(s: Pool<R>, k: nat): Pool<R>
    requires k < |s.flights|
  {
    if s.next >= |s.results| then s.(next := s.next + 1, flights := s.flights[k := None])
    else s.(next := s.next + 1, flights := s.flights[k := Some(s.next)], calls := s.calls + [s.next])
  }

  /** The first `k` runners have been created: each ran up to its first wait. */
  function Created<R>(concurrency: int, n: nat, k: nat): (s: Pool<R>)
    requires k <= Width(concurrency, n)
    ensures |s.flights| == Width(concurrency, n) && |s.results| == n
  {
    if k == 0 then Pool(0, Nothing(Width(concurrency, n)), Nothing(n), [], false)
    else Claim(Created(concurrency, n, k - 1), k - 1)
  }

  function Start<R>(concurrency: int, n: nat): Pool<R> {
    Created(concurrency, n, Width(concurrency, n))
  }

  predicate Enabled<R>(s: Pool<R>, op: Op<R>) {
    op.runner < |s.flights| && s.flights[op.runner].Some?
  }

  /** A step of a runner that waits for nothing cannot happen; as a step it changes nothing. */
  function Step<R>(s: Pool<R>, op: Op<R>): Pool<R> {
    if !Enabled(s, op) then s
    else
      var i := s.flights[op.runner].value;
      match op.outcome
      case Failure => s.(flights := s.flights[op.runner := None], failed := true)
      case Value(r) => if i < |s.results| then Claim(s.(results := s.results[i := Some(r)]), op.runner) else s
  }

  function After<R>(concurrency: int, n: nat, ops: seq<Op<R>>): Pool<R>
    decreases |ops|
  {
    if ops == [] then Start(concurrency, n) else Step(After(concurrency, n, ops[..|ops| - 1]), ops[|ops| - 1])
  }

  /** `Promise.all` has resolved: every runner has ended and no call failed. */
  ghost predicate Resolved<R>(s: Pool<R>) {
    !s.failed && forall k :: 0 <= k < |s.flights| ==> s.flights[k] == None
  }

  // ----- What every reachable state keeps -----

  function Claimed<R>(s: Pool<R>): nat {
    Min(s.next, |s.results|)
  }

  /** Every index is claimed once, in order, and no two runners wait for the same one. */
  ghost predicate ClaimsOnce<R>(s: Pool<R>) {
    && |s.calls| == Claimed(s)
    && (forall i :: 0 <= i < |s.calls| ==> s.calls[i] == i)
    && (forall k :: 0 <= k < |s.flights| && s.flights[k].Some? ==> s.flights[k].value < Claimed(s))
    && (forall k, l :: 0 <= k < l < |s.flights| && s.flights[k].Some? ==> s.flights[k] != s.flights[l])
  }

  ghost predicate Waiting<R>(s: Pool<R>, i: nat) {
    Some(i) in s.flights
  }

  /** A claimed index has its result or is waited for, unless a call failed; never both, and no other has a result. */
  ghost predicate ResultsFollow<R>(s: Pool<R>) {
    && (forall i :: 0 <= i < |s.results| && s.results[i].Some? ==> i < Claimed(s) && !Waiting(s, i))
    && (!s.failed ==> forall i :: 0 <= i < Claimed(s) ==> s.results[i].Some? || Waiting(s, i))
  }

  /** No runner ends while there are items left, unless its call failed. */
  ghost predicate NoIdleRunner<R>(s: Pool<R>) {
    s.next < |s.results| && !s.failed ==> forall k :: 0 <= k < |s.flights| ==> s.flights[k].Some?
  }

  ghost predicate Consistent<R>(s: Pool<R>) {
    ClaimsOnce(s) && ResultsFollow(s) && NoIdleRunner(s)
  }

  /** The runners up to `k` wait for the indices up to `k`; the others are still to come. */
  lemma {:induction false} CreatedFacts<R>(concurrency: int, n: nat, k: nat)
    requires k <= Width(concurrency, n)
    ensures var s := Created<R>(concurrency, n, k);
      && s.next == k && !s.failed && |s.calls| == k && s.results == Nothing(n)
      && (forall i :: 0 <= i < k ==> s.calls[i] == i && s.flights[i] == Some(i))
      && (forall i :: k <= i < |s.flights| ==> s.flights[i] == None)
  {
    if k > 0 {
      CreatedFacts<R>(concurrency, n, k - 1);
    }
  }

  lemma StartConsistent<R>(concurrency: int, n: nat)
    ensures Consistent(Start<R>(concurrency, n))
  {
    CreatedFacts<R>(concurrency, n, Width(concurrency, n));
    var s := Start<R>(concurrency, n);
    forall i | 0 <= i < Claimed(s) ensures Waiting(s, i) {
      assert s.flights[i] == Some(i);
    }
  }

  lemma WaitingUpdate(flights: seq<Option<nat>>, k: nat, to: Option<nat>, i: nat)
    requires k < |flights|
    requires forall j, l :: 0 <= j < l < |flights| && flights[j].Some? ==> flights[j] != flights[l]
    ensures Some(i) in flights[k := to] <==> to == Some(i) || (Some(i) in flights && flights[k] != Some(i))
  {
    var updated := flights[k := to];
    assert updated[k] == to;
    forall l | 0 <= l < |flights| && l != k ensures updated[l] == flights[l] {
    }
    if Some(i) in flights && flights[k] != Some(i) {
      var l :| 0 <= l < |flights| && flights[l] == Some(i);
      assert updated[l] == Some(i);
    }
  }

  lemma SettledKeeps<R>(s: Pool<R>, k: nat, r: R)
    requires Consistent(s) && k < |s.flights| && s.flights[k].Some?
    ensures Consistent(Step(s, Settle(k, Value(r))))
  {
    var s' := Step(s, Settle(k, Value(r)));
    assert s'.flights == s.flights[k := if s.next < |s.results| then Some(s.next) else None];
    forall i: nat ensures Waiting(s', i) <==>
      (s.next < |s.results| && i == s.next) || (Waiting(s, i) && s.flights[k] != Some(i))
    {
      WaitingUpdate(s.flights, k, if s.next < |s.results| then Some(s.next) else None, i);
    }
  }

  lemma FailureKeeps<R>(s: Pool<R>, k: nat)
    requires Consistent(s) && k < |s.flights| && s.flights[k].Some?
    ensures Consistent(Step(s, Settle(k, Failure)))
  {
    var s' := Step(s, Settle(k, Outcome<R>.Failure));
    forall i: nat ensures Waiting(s', i) <==> Waiting(s, i) && s.flights[k] != Some(i) {
      WaitingUpdate(s.flights, k, None, i);
    }
  }

  lemma {:induction false} RunKeeps<R>(concurrency: int, n: nat, ops: seq<Op<R>>)
    ensures var s := After(concurrency, n, ops);
      Consistent(s) && |s.results| == n && |s.flights| == Width(concurrency, n)
    decreases |ops|
  {
    if ops == [] {
      StartConsistent<R>(concurrency, n);
    } else {
      hide Consistent;
      RunKeeps(concurrency, n, ops[..|ops| - 1]);
      var s, op := After(concurrency, n, ops[..|ops| - 1]), ops[|ops| - 1];
      if Enabled(s, op) {
        match op.outcome {
          case Value(r) => SettledKeeps(s, op.runner, r);
          case Failure => FailureKeeps(s, op.runner);
        }
      }
    }
  }

  /**
    At every moment the worker has been called with 0, 1, 2, ... in this order, each once, and no two runners
    wait for the same item.
   */
  lemma EachIndexOnce<R>(concurrency: int, n: nat, ops: seq<Op<R>>)
    ensures var s := After(concurrency, n, ops);
      && |s.calls| <= n
      && (forall i :: 0 <= i < |s.calls| ==> s.calls[i] == i)
      && (forall k, l :: 0 <= k < l < |s.flights| && s.flights[k].Some? ==> s.flights[k] != s.flights[l])
  {
    RunKeeps(concurrency, n, ops);
  }

  // ----- How many wait, and how long the pool lasts -----

  function Busy(flights: seq<Option<nat>>): (n: nat)
    ensures n <= |flights|
  {
    if flights == [] then 0 else Busy(flights[1..]) + (if flights[0].Some? then 1 else 0)
  }

  lemma {:induction false} BusyUpdate(flights: seq<Option<nat>>, k: nat, to: Option<nat>)
    requires k < |flights| && flights[k].Some?
    ensures Busy(flights[k := to]) == Busy(flights) - (if to.Some? then 0 else 1)
  {
    if k == 0 {
      assert flights[k := to][1..] == flights[1..];
    } else {
      BusyUpdate(flights[1..], k - 1, to);
      assert flights[k := to][1..] == flights[1..][k - 1 := to];
    }
  }

  lemma {:induction false} AllBusy(flights: seq<Option<nat>>)
    ensures Busy(flights) == |flights| <==> forall k :: 0 <= k < |flights| ==> flights[k].Some?
    ensures Busy(flights) == 0 <==> forall k :: 0 <= k < |flights| ==> flights[k] == None
  {
    if flights != [] {
      AllBusy(flights[1..]);
      assert flights == [flights[0]] + flights[1..];
    }
  }

  /** The calls still to come back: the waiting ones and the unclaimed ones. */
  function Remaining<R>(s: Pool<R>): nat {
    Busy(s.flights) + (|s.results| - Claimed(s))
  }

  /** Every call that comes back leaves exactly one fewer. */
  lemma StepDecreases<R>(s: Pool<R>, op: Op<R>)
    requires Consistent(s) && Enabled(s, op)
    ensures Remaining(Step(s, op)) == Remaining(s) - 1
  {
    var i := s.flights[op.runner].value;
    match op.outcome
    case Failure => BusyUpdate(s.flights, op.runner, None);
    case Value(_) =>
      BusyUpdate(s.flights, op.runner, None);
      BusyUpdate(s.flights, op.runner, Some(s.next));
  }

  function StepsTaken<R>(concurrency: int, n: nat, ops: seq<Op<R>>): nat
    decreases |ops|
  {
    if ops == [] then 0
    else
      var before := ops[..|ops| - 1];
      StepsTaken(concurrency, n, before) + (if Enabled(After(concurrency, n, before), ops[|ops| - 1]) then 1 else 0)
  }

  /** The calls that came back and the calls that remain add up to the items, so no run takes more steps than items. */
  lemma {:induction false} PoolTerminates<R>(concurrency: int, n: nat, ops: seq<Op<R>>)
    ensures StepsTaken(concurrency, n, ops) + Remaining(After(concurrency, n, ops)) == n
    decreases |ops|
  {
    if ops == [] {
      var s := Start<R>(concurrency, n);
      CreatedFacts<R>(concurrency, n, Width(concurrency, n));
      AllBusy(s.flights);
    } else {
      hide Consistent, Remaining, Step;
      var before := ops[..|ops| - 1];
      PoolTerminates(concurrency, n, before);
      RunKeeps(concurrency, n, before);
      if Enabled(After(concurrency, n, before), ops[|ops| - 1]) {
        StepDecreases(After(concurrency, n, before), ops[|ops| - 1]);
      } else {
        SkipsNothing(After(concurrency, n, before), ops[|ops| - 1]);
      }
    }
  }

  lemma SkipsNothing<R>(s: Pool<R>, op: Op<R>)
    ensures !Enabled(s, op) ==> Step(s, op) == s
  {
  }

  /** Until a call fails the pool is as full as it can be: `concurrency` calls wait, or all that remain. It resolves with the last one. */
  lemma KeepsWorkersBusy<R>(concurrency: int, n: nat, ops: seq<Op<R>>)
    ensures var s := After(concurrency, n, ops);
      && Busy(s.flights) <= Width(concurrency, n)
      && (!s.failed && concurrency >= 1 ==> Busy(s.flights) == Min(concurrency, Remaining(s)))
      && (!s.failed && concurrency >= 1 ==> (Resolved(s) <==> Remaining(s) == 0))
  {
    RunKeeps(concurrency, n, ops);
    PoolTerminates(concurrency, n, ops);
    AllBusy(After(concurrency, n, ops).flights);
  }

  // ----- What the pool answers -----

  /** In the run, step `m` is the answer `r` of the call for item `i`. */
  ghost predicate Answers<R>(concurrency: int, n: nat, ops: seq<Op<R>>, m: nat, i: nat, r: R) {
    && m < |ops|
    && var s := After(concurrency, n, ops[..m]);
      Enabled(s, ops[m]) && s.flights[ops[m].runner] == Some(i) && ops[m].outcome == Value(r)
  }

  /** Every result is the answer of the call for its own item. */
  lemma {:induction false} ResultsAreAnswers<R>(concurrency: int, n: nat, ops: seq<Op<R>>, i: nat)
    requires i < n && |After(concurrency, n, ops).results| == n && After(concurrency, n, ops).results[i].Some?
    ensures exists m: nat :: Answers(concurrency, n, ops, m, i, After(concurrency, n, ops).results[i].value)
    decreases |ops|
  {
    if ops == [] {
      CreatedFacts<R>(concurrency, n, Width(concurrency, n));
    } else {
      hide Consistent, After;
      var last := |ops| - 1;
      var s, s' := After(concurrency, n, ops[..last]), After(concurrency, n, ops);
      assert s' == Step(s, ops[last]) by { AfterStep(concurrency, n, ops); }
      RunKeeps(concurrency, n, ops[..last]);
      if s.results[i] == s'.results[i] {
        ResultsAreAnswers(concurrency, n, ops[..last], i);
        var m: nat :| Answers(concurrency, n, ops[..last], m, i, s'.results[i].value);
        assert ops[..last][..m] == ops[..m];
        assert Answers(concurrency, n, ops, m, i, s'.results[i].value);
      } else {
        assert Answers(concurrency, n, ops, last, i, s'.results[i].value);
      }
    }
  }

  lemma AfterStep<R>(concurrency: int, n: nat, ops: seq<Op<R>>)
    requires ops != []
    ensures After(concurrency, n, ops) == Step(After(concurrency, n, ops[..|ops| - 1]), ops[|ops| - 1])
  {
  }

  /** An answer stays in its place for good. */
  lemma {:induction false} AnswersAreRecorded<R>(concurrency: int, n: nat, ops: seq<Op<R>>, m: nat, i: nat, r: R)
    requires i < n && Answers(concurrency, n, ops, m, i, r)
    ensures |After(concurrency, n, ops).results| == n && After(concurrency, n, ops).results[i] == Some(r)
    decreases |ops|
  {
    var last := |ops| - 1;
    RunKeeps(concurrency, n, ops);
    RunKeeps(concurrency, n, ops[..last]);
    if m < last {
      assert ops[..last][..m] == ops[..m];
      AnswersAreRecorded(concurrency, n, ops[..last], m, i, r);
      StepRecords(After(concurrency, n, ops[..last]), ops[last], i);
    }
  }

  lemma StepRecords<R>(s: Pool<R>, op: Op<R>, i: nat)
    requires Consistent(s) && i < |s.results| && s.results[i].Some?
    ensures |Step(s, op).results| == |s.results| && Step(s, op).results[i] == s.results[i]
  {
    assert !Waiting(s, i);
  }

  /** No item is answered twice. */
  lemma AnsweredOnce<R>(concurrency: int, n: nat, ops: seq<Op<R>>, m: nat, m': nat, i: nat, r: R, r': R)
    requires i < n && Answers(concurrency, n, ops, m, i, r) && Answers(concurrency, n, ops, m', i, r')
    ensures m == m'
  {
    if m < m' {
      AnsweredBefore(concurrency, n, ops, m, m', i, r, r');
    } else if m' < m {
      AnsweredBefore(concurrency, n, ops, m', m, i, r', r);
    }
  }

  lemma AnsweredBefore<R>(concurrency: int, n: nat, ops: seq<Op<R>>, m: nat, m': nat, i: nat, r: R, r': R)
    requires i < n && m < m' < |ops| && Answers(concurrency, n, ops, m, i, r)
    ensures !Answers(concurrency, n, ops, m', i, r')
  {
    assert ops[..m'][..m] == ops[..m];
    AnswersAreRecorded(concurrency, n, ops[..m'], m, i, r);
    RunKeeps(concurrency, n, ops[..m']);
    assert !Waiting(After(concurrency, n, ops[..m']), i);
  }

  /**
    A resolved pool has called the worker for every item and holds every answer, if and only if there was a
    runner at all. A concurrency below one resolves at once with nothing but holes.
   */
  lemma ResolvedIsComplete<R>(concurrency: int, n: nat, ops: seq<Op<R>>)
    requires Resolved(After(concurrency, n, ops))
    ensures var s := After(concurrency, n, ops);
      |s.results| == n && ((|s.calls| == n && forall i :: 0 <= i < n ==> s.results[i].Some?) <==> (concurrency >= 1 || n == 0))
  {
    var s := After(concurrency, n, ops);
    RunKeeps(concurrency, n, ops);
    if concurrency >= 1 && n > 0 {
      assert s.flights[0] == None;
      forall i | 0 <= i < n ensures s.results[i].Some? {
        assert i < Claimed(s) && !Waiting(s, i);
      }
    } else if n > 0 {
      Stuck(concurrency, n, ops);
    }
  }

  lemma {:induction false} Stuck<R>(concurrency: int, n: nat, ops: seq<Op<R>>)
    requires concurrency < 1
    ensures After(concurrency, n, ops) == Start<R>(concurrency, n) && |Start<R>(concurrency, n).calls| == 0
    decreases |ops|
  {
    CreatedFacts<R>(concurrency, n, 0);
    if ops != [] {
      Stuck(concurrency, n, ops[..|ops| - 1]);
    }
  }

  /** With at least one runner, a pool whose worker computes `worker` resolves to the mapped items, whatever the order of the answers. */
  lemma ResultsAreTheMap<T, R>(items: seq<T>, worker: T -> R, concurrency: int, ops: seq<Op<R>>)
    requires concurrency >= 1 && Resolved(After(concurrency, |items|, ops))
    requires forall m: nat, i: nat, r :: Answers(concurrency, |items|, ops, m, i, r) && i < |items| ==> r == worker(items[i])
    ensures var results := After(concurrency, |items|, ops).results;
      |results| == |items| && forall i :: 0 <= i < |items| ==> results[i] == Some(worker(items[i]))
  {
    var s := After(concurrency, |items|, ops);
    RunKeeps(concurrency, |items|, ops);
    ResolvedIsComplete(concurrency, |items|, ops);
    forall i | 0 <= i < |items| ensures s.results[i] == Some(worker(items[i])) {
      ResultsAreAnswers(concurrency, |items|, ops, i);
    }
  }

  // ----- The pool itself -----

  class RunPool<R> {
    const results: array<Option<R>>
    var next: nat
    var flights: seq<Option<nat>>
    var failed: bool
    ghost var calls: seq<nat>

    ghost function Model(): Pool<R>
      reads this, results
    {
      Pool(next, flights, results[..], calls, failed)
    }

    /** All runners are created in one go, each up to its first wait. */
    constructor (concurrency: int, n: nat)
      ensures Model() == Start(concurrency, n)
      ensures fresh(results)
    {
      var width := if concurrency < 0 then 0 else Min(concurrency, n);
      results := new Option<R>[n](_ => None);
      next := 0;
      flights := Nothing<nat>(width);
      failed := false;
      calls := [];
      new;
      assert results[..] == Nothing<R>(n);
      for k := 0 to width
        invariant Model() == Created(concurrency, n, k)
        invariant fresh(results)
      {
        TakeNext(k);
      }
    }

    method TakeNext(k: nat)
      requires k < |flights|
      modifies this
      ensures Model() == Claim(old(Model()), k)
    {
      var idx := next;
      next := next + 1;
      if idx >= results.Length {
        flights := flights[k := None];
        return;
      }
      flights := flights[k := Some(idx)];
      calls := calls + [idx];
    }

    method OnSettled(k: nat, outcome: Outcome<R>)
      requires k < |flights| && flights[k].Some? && flights[k].value < results.Length
      modifies this, results
      ensures Model() == Step(old(Model()), Settle(k, outcome))
    {
      match outcome
      case Failure =>
        flights := flights[k := None];
        failed := true;
      case Value(r) =>
        results[flights[k].value] := Some(r);
        TakeNext(k);
    }
  }
}
