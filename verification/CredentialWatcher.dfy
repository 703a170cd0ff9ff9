/**
  The credential watcher as a step system: debounced checks, direct polls, one poll body at a time, and the
  change events it hands to its callback.
 */
module CredentialWatcher {
  import opened Options
  import opened JsMaps

  type Creds = map<string, string>

  /** One poll's reading of every service: its credentials, or `None` where they are not available. */
  type Snapshot = m: JsMap<string, Option<Creds>> | m.Valid() witness Empty()

  /** How a poll body ends: it met an unreachable store, it threw, or it read every service. */
  datatype Outcome = Outage | Threw | Complete(snapshot: Snapshot)

  /** The watcher's fields; `bodyForce` is the argument of the poll body that is running. */
  datatype Watcher = Watcher(
    polling: bool,
    bodyForce: bool,
    pendingPoll: bool,
    pendingForceChanged: bool,
    armed: bool,
    lastSerialized: map<string, string>)

  datatype ChangeEvent = ChangeEvent(credentials: Snapshot, changedServices: set<string>)

  /** What can happen: a scheduled check, its timer, a direct poll, the end of the poll body, `stop`. */
  datatype Op = Schedule(force: bool) | Fire | Poll(force: bool) | BodyEnds(outcome: Outcome) | Stop

  // ----- The flags -----

  function New(): Watcher {
    Watcher(false, false, false, false, false, map[])
  }

  /** `pollOnce` up to its first await: start the body, or flag another round. */
  function PollOnce(w: Watcher, force: bool): Watcher {
    if w.polling then w.(pendingPoll := true, pendingForceChanged := w.pendingForceChanged || force)
    else w.(polling := true, bodyForce := force)
  }

  /** The end of a poll body: the next round starts at once when one was flagged. */
  function Finish(w: Watcher): Watcher {
    var idle := w.(polling := false);
    if w.pendingPoll
    then PollOnce(idle.(pendingPoll := false, pendingForceChanged := false), w.pendingForceChanged)
    else idle
  }

  // ----- The delta -----

  function Serialized(serialize: Creds -> string, creds: Option<Creds>): Option<string> {
    if creds.Some? then Some(serialize(creds.value)) else None
  }

  function Get<V>(m: map<string, V>, service: string): Option<V> {
    if service in m then Some(m[service]) else None
  }

  function Put<V>(m: map<string, V>, service: string, v: Option<V>): map<string, V> {
    if v.Some? then m[service := v.value] else m - {service}
  }

  predicate Changed(serialize: Creds -> string, last: map<string, string>, force: bool, service: string, creds: Option<Creds>) {
    var newVal := Serialized(serialize, creds);
    newVal != Get(last, service) || (force && newVal.Some?)
  }

  /** The services a poll reports. */
  function ChangedServices(serialize: Creds -> string, last: map<string, string>, force: bool, snapshot: Snapshot): set<string> {
    set s | s in snapshot.table && Changed(serialize, last, force, s, snapshot.table[s])
  }

  /** The recorded serialization after the first `n` services of a snapshot. */
  function Recorded(serialize: Creds -> string, last: map<string, string>, snapshot: Snapshot, n: nat): map<string, string>
    requires n <= |snapshot.order|
  {
    if n == 0 then last
    else
      var s := snapshot.order[n - 1];
      Put(Recorded(serialize, last, snapshot, n - 1), s, Serialized(serialize, snapshot.table[s]))
  }

  function Record(serialize: Creds -> string, last: map<string, string>, snapshot: Snapshot): map<string, string> {
    Recorded(serialize, last, snapshot, |snapshot.order|)
  }

  // ----- Steps and runs -----

  function Step(serialize: Creds -> string, w: Watcher, op: Op): Watcher {
    match op
    case Schedule(force) => w.(armed := true, pendingForceChanged := w.pendingForceChanged || force)
    case Fire =>
      if w.armed then PollOnce(w.(armed := false, pendingForceChanged := false), w.pendingForceChanged) else w
    case Poll(force) => PollOnce(w, force)
    case BodyEnds(outcome) =>
      if !w.polling then w
      else if outcome.Complete?
      then Finish(w.(lastSerialized := Record(serialize, w.lastSerialized, outcome.snapshot)))
      else Finish(w)
    case Stop => w.(armed := false, pendingPoll := false)
  }

  /** The event a step hands to the callback. */
  function Emitted(serialize: Creds -> string, w: Watcher, op: Op): Option<ChangeEvent> {
    if op.BodyEnds? && op.outcome.Complete? && w.polling then
      var changed := ChangedServices(serialize, w.lastSerialized, w.bodyForce, op.outcome.snapshot);
      if changed == {} then None else Some(ChangeEvent(op.outcome.snapshot, changed))
    else None
  }

  function After(serialize: Creds -> string, ops: seq<Op>): Watcher
    decreases |ops|
  {
    if ops == [] then New() else Step(serialize, After(serialize, ops[..|ops| - 1]), ops[|ops| - 1])
  }

  // ----- The trace of requests and poll bodies -----

  datatype Mark = Scheduled(force: bool) | Requested(force: bool) | Started(force: bool) | Ended

  function PollMarks(w: Watcher, force: bool): seq<Mark> {
    if w.polling then [Requested(force)] else [Requested(force), Started(force)]
  }

  function Marks(w: Watcher, op: Op): seq<Mark> {
    match op
    case Schedule(force) => [Scheduled(force)]
    case Fire => if w.armed then PollMarks(w, w.pendingForceChanged) else []
    case Poll(force) => PollMarks(w, force)
    case BodyEnds(_) =>
      if !w.polling then [] else if w.pendingPoll then [Ended, Started(w.pendingForceChanged)] else [Ended]
    case Stop => []
  }

  function Trace(serialize: Creds -> string, ops: seq<Op>): seq<Mark>
    decreases |ops|
  {
    if ops == [] then []
    else Trace(serialize, ops[..|ops| - 1]) + Marks(After(serialize, ops[..|ops| - 1]), ops[|ops| - 1])
  }

  function Change(m: Mark): int {
    if m.Started? then 1 else if m.Ended? then -1 else 0
  }

  /** How many poll bodies are running. */
  function Running(trace: seq<Mark>): int
    decreases |trace|
  {
    if trace == [] then 0 else Running(trace[..|trace| - 1]) + Change(trace[|trace| - 1])
  }

  /** Some call of `pollOnce` has no body started after it. */
  predicate OwesPoll(trace: seq<Mark>)
    decreases |trace|
  {
    trace != [] &&
    match trace[|trace| - 1]
    case Requested(_) => true
    case Started(_) => false
    case _ => OwesPoll(trace[..|trace| - 1])
  }

  /** Some scheduled check has no body started after it. */
  predicate OwesCheck(trace: seq<Mark>)
    decreases |trace|
  {
    trace != [] &&
    match trace[|trace| - 1]
    case Scheduled(_) => true
    case Started(_) => false
    case _ => OwesCheck(trace[..|trace| - 1])
  }

  /** Some forced request has no forced body started after it. */
  predicate OwesForce(trace: seq<Mark>)
    decreases |trace|
  {
    trace != [] &&
    var last := trace[|trace| - 1];
    if Forces(last) then true
    else if last == Started(true) then false
    else OwesForce(trace[..|trace| - 1])
  }

  predicate Forces(m: Mark) {
    m == Scheduled(true) || m == Requested(true)
  }

  /** Whatever the trace still owes is recorded in the flags. */
  ghost predicate FlagsRecord(w: Watcher, trace: seq<Mark>) {
    && Running(trace) == (if w.polling then 1 else 0)
    && (w.pendingPoll ==> w.polling)
    && (w.pendingForceChanged ==> w.armed || w.pendingPoll)
    && (OwesPoll(trace) ==> w.pendingPoll)
    && (OwesCheck(trace) ==> w.armed || w.pendingPoll)
    && (OwesForce(trace) ==> w.pendingForceChanged)
  }

  lemma TraceAppend(trace: seq<Mark>, m: Mark)
    ensures Running(trace + [m]) == Running(trace) + Change(m)
    ensures OwesPoll(trace + [m]) == (m.Requested? || (!m.Started? && OwesPoll(trace)))
    ensures OwesCheck(trace + [m]) == (m.Scheduled? || (!m.Started? && OwesCheck(trace)))
    ensures OwesForce(trace + [m]) == (Forces(m) || (m != Started(true) && OwesForce(trace)))
  {
    assert (trace + [m])[..|trace|] == trace;
  }

  lemma PollKeeps(w: Watcher, force: bool, trace: seq<Mark>)
    requires FlagsRecord(w, trace)
    ensures FlagsRecord(PollOnce(w, force), trace + PollMarks(w, force))
  {
    hide Running, OwesPoll, OwesCheck, OwesForce;
    TraceAppend(trace, Requested(force));
    if !w.polling {
      TraceAppend(trace + [Requested(force)], Started(force));
      assert trace + [Requested(force), Started(force)] == trace + [Requested(force)] + [Started(force)];
    }
  }

  /** The timer hands the recorded force over to a poll request. */
  lemma FireKeeps(w: Watcher, trace: seq<Mark>)
    requires FlagsRecord(w, trace) && w.armed
    ensures FlagsRecord(PollOnce(w.(armed := false, pendingForceChanged := false), w.pendingForceChanged),
                        trace + PollMarks(w, w.pendingForceChanged))
  {
    hide Running, OwesPoll, OwesCheck, OwesForce;
    var force := w.pendingForceChanged;
    TraceAppend(trace, Requested(force));
    if !w.polling {
      TraceAppend(trace + [Requested(force)], Started(force));
      assert trace + [Requested(force), Started(force)] == trace + [Requested(force)] + [Started(force)];
    }
  }

  lemma FinishKeeps(w: Watcher, trace: seq<Mark>)
    requires FlagsRecord(w, trace) && w.polling
    ensures FlagsRecord(Finish(w), trace + if w.pendingPoll then [Ended, Started(w.pendingForceChanged)] else [Ended])
  {
    hide Running, OwesPoll, OwesCheck, OwesForce;
    TraceAppend(trace, Ended);
    if w.pendingPoll {
      var next := Started(w.pendingForceChanged);
      TraceAppend(trace + [Ended], next);
      assert trace + [Ended, next] == trace + [Ended] + [next];
    }
  }

  lemma StepKeeps(serialize: Creds -> string, w: Watcher, op: Op, trace: seq<Mark>)
    requires FlagsRecord(w, trace) && !op.Stop?
    ensures FlagsRecord(Step(serialize, w, op), trace + Marks(w, op))
  {
    hide Running, OwesPoll, OwesCheck, OwesForce, Record;
    assert trace + [] == trace;
    match op
    case Schedule(force) => TraceAppend(trace, Scheduled(force));
    case Fire => if w.armed { FireKeeps(w, trace); }
    case Poll(force) => PollKeeps(w, force, trace);
    case BodyEnds(outcome) =>
      if w.polling {
        if outcome.Complete? {
          FinishKeeps(w.(lastSerialized := Record(serialize, w.lastSerialized, outcome.snapshot)), trace);
        } else {
          FinishKeeps(w, trace);
        }
      }
  }

  predicate NeverStopped(ops: seq<Op>) {
    forall i :: 0 <= i < |ops| ==> !ops[i].Stop?
  }

  lemma {:induction false} RunKeeps(serialize: Creds -> string, ops: seq<Op>)
    requires NeverStopped(ops)
    ensures FlagsRecord(After(serialize, ops), Trace(serialize, ops))
    decreases |ops|
  {
    if ops != [] {
      hide Step, Marks, FlagsRecord;
      var before := ops[..|ops| - 1];
      RunKeeps(serialize, before);
      StepKeeps(serialize, After(serialize, before), ops[|ops| - 1], Trace(serialize, before));
    } else {
      assert FlagsRecord(New(), []);
    }
  }

  /** A body starts after position `i` of the trace. */
  predicate StartedSince(trace: seq<Mark>, i: nat) {
    exists j :: i < j < |trace| && trace[j].Started?
  }

  predicate ForcedSince(trace: seq<Mark>, i: nat) {
    exists j :: i < j < |trace| && trace[j] == Started(true)
  }

  lemma {:induction false} PaidPolls(trace: seq<Mark>, i: nat)
    requires i < |trace|
    ensures trace[i].Requested? ==> OwesPoll(trace) || StartedSince(trace, i)
    ensures trace[i].Scheduled? ==> OwesCheck(trace) || StartedSince(trace, i)
    ensures Forces(trace[i]) ==> OwesForce(trace) || ForcedSince(trace, i)
    decreases |trace|
  {
    var n := |trace| - 1;
    if i < n {
      PaidPolls(trace[..n], i);
      if StartedSince(trace[..n], i) {
        var j :| i < j < n && trace[..n][j].Started?;
        assert trace[j].Started?;
      }
      if ForcedSince(trace[..n], i) {
        var j :| i < j < n && trace[..n][j] == Started(true);
        assert trace[j] == Started(true);
      }
      if trace[n].Started? { assert StartedSince(trace, i); }
      if trace[n] == Started(true) { assert ForcedSince(trace, i); }
    }
  }

  lemma {:induction false} RunningAppend(a: seq<Mark>, b: seq<Mark>)
    ensures Running(a + b) == Running(a) + Running(b)
    decreases |b|
  {
    if b == [] {
      assert a + b == a;
    } else {
      assert (a + b)[..|a + b| - 1] == a + b[..|b| - 1];
      RunningAppend(a, b[..|b| - 1]);
    }
  }

  function Bodies(w: Watcher): int {
    if w.polling then 1 else 0
  }

  lemma RunningMarks(m: Mark, m': Mark)
    ensures Running([]) == 0 && Running([m]) == Change(m) && Running([m, m']) == Change(m) + Change(m')
  {
    assert [m][..0] == [] && [m, m'][..1] == [m];
  }

  /** Every step, `stop` included, starts and ends bodies as the flag says. */
  lemma StepCountsBodies(serialize: Creds -> string, w: Watcher, op: Op)
    ensures Bodies(Step(serialize, w, op)) == Bodies(w) + Running(Marks(w, op))
  {
    hide Running, Record;
    RunningMarks(Ended, Started(w.pendingForceChanged));
    RunningMarks(Requested(w.pendingForceChanged), Started(w.pendingForceChanged));
    if op.Poll? || op.Schedule? {
      RunningMarks(Requested(op.force), Started(op.force));
      RunningMarks(Scheduled(op.force), Started(op.force));
    }
  }

  /** At most one poll body runs at any time, and exactly while the flag says so; stopping makes no difference. */
  lemma {:induction false} OneBodyAtATime(serialize: Creds -> string, ops: seq<Op>)
    ensures 0 <= Running(Trace(serialize, ops)) <= 1
    ensures Running(Trace(serialize, ops)) == Bodies(After(serialize, ops))
    decreases |ops|
  {
    if ops != [] {
      hide Step, Marks, Running;
      var before := ops[..|ops| - 1];
      OneBodyAtATime(serialize, before);
      StepCountsBodies(serialize, After(serialize, before), ops[|ops| - 1]);
      RunningAppend(Trace(serialize, before), Marks(After(serialize, before), ops[|ops| - 1]));
    }
  }

  /**
    No lost wake-up: before `stop`, every call of `pollOnce` is followed by a body or recorded for the end of
    the running one, and every scheduled check is followed by a body, waits for its timer, or is so recorded.
   */
  lemma NoLostWakeup(serialize: Creds -> string, ops: seq<Op>, i: nat)
    requires NeverStopped(ops) && i < |Trace(serialize, ops)|
    ensures var w, trace := After(serialize, ops), Trace(serialize, ops);
      && (trace[i].Requested? ==> StartedSince(trace, i) || (w.polling && w.pendingPoll))
      && (trace[i].Scheduled? ==> StartedSince(trace, i) || w.armed || (w.polling && w.pendingPoll))
  {
    RunKeeps(serialize, ops);
    PaidPolls(Trace(serialize, ops), i);
  }

  /**
    No lost force: before `stop`, every forced request is followed by a body started with force set, or its
    force is recorded together with what will start that body.
   */
  lemma NoLostForce(serialize: Creds -> string, ops: seq<Op>, i: nat)
    requires NeverStopped(ops) && i < |Trace(serialize, ops)| && Forces(Trace(serialize, ops)[i])
    ensures var w, trace := After(serialize, ops), Trace(serialize, ops);
      ForcedSince(trace, i) || (w.pendingForceChanged && (w.armed || (w.polling && w.pendingPoll)))
  {
    RunKeeps(serialize, ops);
    PaidPolls(Trace(serialize, ops), i);
  }

  /** The running body ends, the timer fires, and the body that runs then ends. */
  function Settling(first: Outcome, second: Outcome): seq<Op> {
    [BodyEnds(first), Fire, BodyEnds(second)]
  }

  lemma SettlingSteps(serialize: Creds -> string, ops: seq<Op>, first: Outcome, second: Outcome)
    ensures var longer := ops + Settling(first, second);
      && After(serialize, longer)
         == Step(serialize, Step(serialize, Step(serialize, After(serialize, ops), BodyEnds(first)), Fire), BodyEnds(second))
      && exists rest :: Trace(serialize, longer) == Trace(serialize, ops) + rest
  {
    hide Step, Marks;
    var one, two, three := ops + [BodyEnds(first)], ops + [BodyEnds(first), Fire], ops + Settling(first, second);
    assert one[..|ops|] == ops && two[..|one|] == one && three[..|two|] == two;
    var a := Marks(After(serialize, ops), BodyEnds(first));
    var b := Marks(After(serialize, one), Fire);
    var c := Marks(After(serialize, two), BodyEnds(second));
    assert Trace(serialize, one) == Trace(serialize, ops) + a;
    assert Trace(serialize, two) == Trace(serialize, one) + b;
    assert Trace(serialize, three) == Trace(serialize, ops) + (a + b + c);
  }

  lemma SettledAtRest(serialize: Creds -> string, w: Watcher, first: Outcome, second: Outcome)
    requires w.pendingPoll ==> w.polling
    ensures var d := Step(serialize, Step(serialize, Step(serialize, w, BodyEnds(first)), Fire), BodyEnds(second));
      !d.armed && !d.pendingPoll
  {
    hide Record;
  }

  lemma NeverStoppedLonger(ops: seq<Op>, first: Outcome, second: Outcome)
    requires NeverStopped(ops)
    ensures NeverStopped(ops + Settling(first, second))
  {
  }

  /**
    Everything asked for is polled: before `stop`, once the running body has ended, the timer has fired and the
    body running then has ended too, each earlier call and each earlier scheduled check has had a body after it,
    and each forced one a forced body.
   */
  lemma WakeupArrives(serialize: Creds -> string, ops: seq<Op>, first: Outcome, second: Outcome, i: nat)
    requires NeverStopped(ops) && i < |Trace(serialize, ops)|
    ensures var trace, later := Trace(serialize, ops), Trace(serialize, ops + Settling(first, second));
      && (trace[i].Requested? || trace[i].Scheduled? ==> StartedSince(later, i))
      && (Forces(trace[i]) ==> ForcedSince(later, i))
  {
    hide After, Trace, Step, NeverStopped, StartedSince, ForcedSince, Settling;
    var longer := ops + Settling(first, second);
    SettlingSteps(serialize, ops, first, second);
    NeverStoppedLonger(ops, first, second);
    RunOwes(serialize, ops);
    SettledAtRest(serialize, After(serialize, ops), first, second);
    var rest :| Trace(serialize, longer) == Trace(serialize, ops) + rest;
    NoLostWakeup(serialize, longer, i);
    if Forces(Trace(serialize, ops)[i]) {
      NoLostForce(serialize, longer, i);
    }
  }

  /** What is recorded is acted on: the end of a body, or the timer of an idle watcher, starts the forced body. */
  lemma RecordedForceIsUsed(serialize: Creds -> string, w: Watcher, outcome: Outcome)
    requires w.pendingForceChanged
    ensures w.polling && w.pendingPoll ==> Step(serialize, w, BodyEnds(outcome)).polling && Step(serialize, w, BodyEnds(outcome)).bodyForce
    ensures !w.polling && w.armed ==> Step(serialize, w, Fire).polling && Step(serialize, w, Fire).bodyForce
  {
  }

  /** A forced body that reads every service reports every service that is there, changed or not. */
  lemma ForceReportsEverything(serialize: Creds -> string, w: Watcher, snapshot: Snapshot, s: string)
    requires w.polling && w.bodyForce && s in snapshot.table && snapshot.table[s].Some?
    ensures Emitted(serialize, w, BodyEnds(Complete(snapshot))).Some?
    ensures s in Emitted(serialize, w, BodyEnds(Complete(snapshot))).value.changedServices
  {
    assert s in ChangedServices(serialize, w.lastSerialized, true, snapshot);
  }

  /** A forced body is running, or a force is recorded for a later one. */
  predicate ForceLeft(w: Watcher) {
    (w.polling && w.bodyForce) || w.pendingForceChanged
  }

  /**
    But a forced body that meets an outage, or throws, uses its force up: nothing is reported, and a force is
    left if and only if another one was recorded while the body ran.
   */
  lemma OutageSpendsForce(serialize: Creds -> string, w: Watcher, outcome: Outcome)
    requires w.polling && w.bodyForce && !outcome.Complete?
    ensures Emitted(serialize, w, BodyEnds(outcome)) == None
    ensures ForceLeft(Step(serialize, w, BodyEnds(outcome))) <==> w.pendingForceChanged
  {
  }

  predicate Unforced(ops: seq<Op>) {
    forall i :: 0 <= i < |ops| ==> (ops[i].Schedule? || ops[i].Poll?) ==> !ops[i].force
  }

  function RunFrom(serialize: Creds -> string, w: Watcher, ops: seq<Op>): Watcher
    decreases |ops|
  {
    if ops == [] then w else Step(serialize, RunFrom(serialize, w, ops[..|ops| - 1]), ops[|ops| - 1])
  }

  /** Where no force is left, none comes back without a new forced request. */
  lemma {:induction false} ForceNeedsRequest(serialize: Creds -> string, w: Watcher, ops: seq<Op>)
    requires !ForceLeft(w) && Unforced(ops)
    ensures !ForceLeft(RunFrom(serialize, w, ops))
    decreases |ops|
  {
    if ops != [] {
      hide Record;
      ForceNeedsRequest(serialize, w, ops[..|ops| - 1]);
    }
  }

  /** So the services of a forced check that could not be read are not reported until something else asks for it. */
  lemma SpentForceStaysSpent(serialize: Creds -> string, w: Watcher, outcome: Outcome, ops: seq<Op>)
    requires w.polling && w.bodyForce && !outcome.Complete? && !w.pendingForceChanged && Unforced(ops)
    ensures !ForceLeft(RunFrom(serialize, Step(serialize, w, BodyEnds(outcome)), ops))
  {
    OutageSpendsForce(serialize, w, outcome);
    ForceNeedsRequest(serialize, Step(serialize, w, BodyEnds(outcome)), ops);
  }

  /** The shortest such run: a forced check whose poll meets an outage leaves the watcher as it was. */
  lemma ForcedCheckIsSpent(serialize: Creds -> string)
    ensures var w := After(serialize, [Schedule(true), Fire]);
      && w.polling && w.bodyForce
      && Step(serialize, w, BodyEnds(Outage)) == New().(bodyForce := true)
  {
    assert [Schedule(true), Fire][..1] == [Schedule(true)];
    assert [Schedule(true)][..0] == [];
    assert After(serialize, []) == New();
    assert After(serialize, [Schedule(true)]) == Step(serialize, New(), Schedule(true));
    assert After(serialize, [Schedule(true), Fire]) == Step(serialize, After(serialize, [Schedule(true)]), Fire);
  }

  // ----- No body without a request -----

  /** A call of `pollOnce` made before position `j`, since when no body has started. */
  predicate RequestedBefore(trace: seq<Mark>, j: nat)
    requires j <= |trace|
  {
    exists i :: 0 <= i < j && trace[i].Requested? && forall m :: i < m < j ==> !trace[m].Started?
  }

  lemma {:induction false} OwedIsRequested(trace: seq<Mark>)
    requires OwesPoll(trace)
    ensures RequestedBefore(trace, |trace|)
    decreases |trace|
  {
    var n := |trace| - 1;
    if !trace[n].Requested? {
      OwedIsRequested(trace[..n]);
      var i :| 0 <= i < n && trace[..n][i].Requested? && forall m :: i < m < n ==> !trace[..n][m].Started?;
      assert trace[i].Requested?;
      forall m | i < m < |trace| ensures !trace[m].Started? {
        assert m < n ==> trace[m] == trace[..n][m];
      }
    } else {
      assert trace[n].Requested?;
    }
  }

  lemma RequestedAppend(trace: seq<Mark>, more: seq<Mark>, j: nat)
    requires j <= |trace|
    ensures RequestedBefore(trace + more, j) <==> RequestedBefore(trace, j)
  {
    var longer := trace + more;
    assert forall i :: 0 <= i < j ==> longer[i] == trace[i];
    if RequestedBefore(trace, j) {
      var i :| 0 <= i < j && trace[i].Requested? && forall m :: i < m < j ==> !trace[m].Started?;
      assert longer[i].Requested?;
      forall m | i < m < j ensures !longer[m].Started? {
        assert longer[m] == trace[m];
      }
    }
    if RequestedBefore(longer, j) {
      var i :| 0 <= i < j && longer[i].Requested? && forall m :: i < m < j ==> !longer[m].Started?;
      assert trace[i].Requested?;
      forall m | i < m < j ensures !trace[m].Started? {
        assert longer[m] == trace[m];
      }
    }
  }

  /** A recorded poll is an owed one. */
  lemma StepOwes(serialize: Creds -> string, w: Watcher, op: Op, trace: seq<Mark>)
    requires w.pendingPoll ==> w.polling && OwesPoll(trace)
    ensures Step(serialize, w, op).pendingPoll ==> Step(serialize, w, op).polling && OwesPoll(trace + Marks(w, op))
  {
    hide OwesPoll, OwesCheck, OwesForce, Running, Record;
    assert trace + [] == trace;
    if |Marks(w, op)| == 1 {
      TraceAppend(trace, Marks(w, op)[0]);
    } else if |Marks(w, op)| == 2 {
      TraceAppend(trace, Marks(w, op)[0]);
      TraceAppend(trace + [Marks(w, op)[0]], Marks(w, op)[1]);
      assert trace + Marks(w, op) == trace + [Marks(w, op)[0]] + [Marks(w, op)[1]];
    }
  }

  lemma {:induction false} RunOwes(serialize: Creds -> string, ops: seq<Op>)
    ensures var w := After(serialize, ops); w.pendingPoll ==> w.polling && OwesPoll(Trace(serialize, ops))
    decreases |ops|
  {
    if ops != [] {
      hide Step, Marks, OwesPoll;
      RunOwes(serialize, ops[..|ops| - 1]);
      StepOwes(serialize, After(serialize, ops[..|ops| - 1]), ops[|ops| - 1], Trace(serialize, ops[..|ops| - 1]));
    }
  }

  /** Where one operation starts a body, it is requested then, or its recorded request was owed before. */
  lemma StartsAsked(w: Watcher, op: Op, trace: seq<Mark>, j: nat)
    requires j < |Marks(w, op)| && Marks(w, op)[j].Started? && (w.pendingPoll ==> OwesPoll(trace))
    ensures RequestedBefore(trace + Marks(w, op), |trace| + j)
  {
    hide OwesPoll;
    var longer := trace + Marks(w, op);
    if op.BodyEnds? {
      OwedIsRequested(trace);
      var i :| 0 <= i < |trace| && trace[i].Requested? && forall m :: i < m < |trace| ==> !trace[m].Started?;
      assert longer[i].Requested?;
      forall m | i < m < |trace| + j ensures !longer[m].Started? {
        assert m < |trace| ==> longer[m] == trace[m];
      }
    } else {
      assert longer[|trace|].Requested?;
    }
  }

  /** No body starts by itself: each answers a call of `pollOnce` made since the body before it started. */
  lemma {:induction false} BodiesAreRequested(serialize: Creds -> string, ops: seq<Op>, j: nat)
    requires j < |Trace(serialize, ops)| && Trace(serialize, ops)[j].Started?
    ensures RequestedBefore(Trace(serialize, ops), j)
    decreases |ops|
  {
    hide Step, Marks, OwesPoll, RequestedBefore;
    var n := |ops| - 1;
    var trace := Trace(serialize, ops[..n]);
    RunOwes(serialize, ops[..n]);
    if j < |trace| {
      BodiesAreRequested(serialize, ops[..n], j);
      RequestedAppend(trace, Marks(After(serialize, ops[..n]), ops[n]), j);
    } else {
      StartsAsked(After(serialize, ops[..n]), ops[n], trace, j - |trace|);
    }
  }

  // ----- After stop -----

  /** No call asks for anything: only timers, ends of bodies and further stops. */
  predicate NoCalls(ops: seq<Op>) {
    forall i :: 0 <= i < |ops| ==> !ops[i].Schedule? && !ops[i].Poll?
  }

  predicate NoStart(marks: seq<Mark>) {
    forall i :: 0 <= i < |marks| ==> !marks[i].Started?
  }

  predicate AtRest(w: Watcher) {
    !w.armed && !w.pendingPoll
  }

  lemma RestStep(serialize: Creds -> string, w: Watcher, op: Op)
    requires AtRest(w) && !op.Schedule? && !op.Poll?
    ensures AtRest(Step(serialize, w, op)) && NoStart(Marks(w, op))
  {
    hide Record;
  }

  lemma StopRests(serialize: Creds -> string, w: Watcher)
    ensures AtRest(Step(serialize, w, Stop)) && Marks(w, Stop) == []
  {
  }

  /** After `stop` no body starts, neither from the timer nor at the end of the running one, until there is a new call. */
  lemma {:induction false} StopStartsNothing(serialize: Creds -> string, ops: seq<Op>, more: seq<Op>) returns (rest: seq<Mark>)
    requires NoCalls(more)
    ensures Trace(serialize, ops + [Stop] + more) == Trace(serialize, ops) + rest && NoStart(rest)
    ensures AtRest(After(serialize, ops + [Stop] + more))
    decreases |more|
  {
    hide Step, Marks, AtRest;
    if more == [] {
      assert ops + [Stop] + more == ops + [Stop];
      assert (ops + [Stop])[..|ops|] == ops;
      StopRests(serialize, After(serialize, ops));
      rest := [];
    } else {
      var n := |more| - 1;
      var before := ops + [Stop] + more[..n];
      assert (ops + [Stop] + more)[..|before|] == before;
      rest := StopStartsNothing(serialize, ops, more[..n]);
      RestStep(serialize, After(serialize, before), more[n]);
      rest := rest + Marks(After(serialize, before), more[n]);
    }
  }

  // ----- The events are a faithful delta -----

  /** A consumer that looks only at the changed services of each event, after the first `n` of the snapshot. */
  function Applied(held: map<string, Creds>, e: ChangeEvent, n: nat): map<string, Creds>
    requires n <= |e.credentials.order|
  {
    if n == 0 then held
    else
      var s := e.credentials.order[n - 1];
      if s in e.changedServices then Put(Applied(held, e, n - 1), s, e.credentials.table[s]) else Applied(held, e, n - 1)
  }

  function Consume(held: map<string, Creds>, e: Option<ChangeEvent>): map<string, Creds> {
    if e.Some? then Applied(held, e.value, |e.value.credentials.order|) else held
  }

  /** What the consumer holds after `ops`. */
  function Held(serialize: Creds -> string, ops: seq<Op>): map<string, Creds>
    decreases |ops|
  {
    if ops == [] then map[]
    else
      var before := ops[..|ops| - 1];
      Consume(Held(serialize, before), Emitted(serialize, After(serialize, before), ops[|ops| - 1]))
  }

  /** The last snapshot in which every service was reachable. */
  function LastSnapshot(serialize: Creds -> string, ops: seq<Op>): Option<Snapshot>
    decreases |ops|
  {
    if ops == [] then None
    else
      var last := ops[|ops| - 1];
      if last.BodyEnds? && last.outcome.Complete? && After(serialize, ops[..|ops| - 1]).polling
      then Some(last.outcome.snapshot)
      else LastSnapshot(serialize, ops[..|ops| - 1])
  }

  /** Every poll reads the same services. */
  ghost predicate ReadsServices(services: set<string>, ops: seq<Op>) {
    forall i :: 0 <= i < |ops| && ops[i].BodyEnds? && ops[i].outcome.Complete? ==>
      ops[i].outcome.snapshot.table.Keys == services
  }

  function Wanted(snapshot: Option<Snapshot>, service: string): Option<Creds> {
    if snapshot.Some? && service in snapshot.value.table then snapshot.value.table[service] else None
  }

  lemma {:induction false} RecordedAt(serialize: Creds -> string, last: map<string, string>, snapshot: Snapshot, n: nat, s: string)
    requires n <= |snapshot.order|
    ensures Get(Recorded(serialize, last, snapshot, n), s) ==
      if s in snapshot.order[..n] then Serialized(serialize, snapshot.table[s]) else Get(last, s)
  {
    if n > 0 {
      RecordedAt(serialize, last, snapshot, n - 1, s);
      assert snapshot.order[..n] == snapshot.order[..n - 1] + [snapshot.order[n - 1]];
    }
  }

  lemma {:induction false} AppliedAt(held: map<string, Creds>, e: ChangeEvent, n: nat, s: string)
    requires n <= |e.credentials.order|
    ensures Get(Applied(held, e, n), s) ==
      if s in e.credentials.order[..n] && s in e.changedServices then e.credentials.table[s] else Get(held, s)
  {
    if n > 0 {
      AppliedAt(held, e, n - 1, s);
      assert e.credentials.order[..n] == e.credentials.order[..n - 1] + [e.credentials.order[n - 1]];
    }
  }

  /** The record and the consumer agree on `s`, up to serialization. */
  ghost predicate InStep(serialize: Creds -> string, last: map<string, string>, held: map<string, Creds>, s: string) {
    Get(last, s) == Serialized(serialize, Get(held, s))
  }

  /** One complete poll brings the record to the snapshot, and the consumer with it. */
  lemma SnapshotArrives(serialize: Creds -> string, w: Watcher, held: map<string, Creds>, snapshot: Snapshot, s: string)
    requires w.polling && InStep(serialize, w.lastSerialized, held, s)
    ensures var op := BodyEnds(Complete(snapshot));
      && InStep(serialize, Step(serialize, w, op).lastSerialized, Consume(held, Emitted(serialize, w, op)), s)
      && (s in snapshot.table ==> Get(Step(serialize, w, op).lastSerialized, s) == Serialized(serialize, snapshot.table[s]))
      && (s !in snapshot.table ==> Get(Step(serialize, w, op).lastSerialized, s) == Get(w.lastSerialized, s))
  {
    RecordedAt(serialize, w.lastSerialized, snapshot, |snapshot.order|, s);
    assert snapshot.order[..|snapshot.order|] == snapshot.order;
    var changed := ChangedServices(serialize, w.lastSerialized, w.bodyForce, snapshot);
    AppliedAt(held, ChangeEvent(snapshot, changed), |snapshot.order|, s);
  }

  lemma OtherStepsReportNothing(serialize: Creds -> string, w: Watcher, op: Op)
    requires op.BodyEnds? && op.outcome.Complete? ==> !w.polling
    ensures Step(serialize, w, op).lastSerialized == w.lastSerialized && Emitted(serialize, w, op) == None
  {
  }

  lemma {:induction false} RunInStep(serialize: Creds -> string, services: set<string>, ops: seq<Op>, s: string)
    requires ReadsServices(services, ops)
    ensures InStep(serialize, After(serialize, ops).lastSerialized, Held(serialize, ops), s)
    ensures Get(After(serialize, ops).lastSerialized, s) == Serialized(serialize, Wanted(LastSnapshot(serialize, ops), s))
    decreases |ops|
  {
    hide Step, Emitted, Applied;
    if ops != [] {
      var before := ops[..|ops| - 1];
      var last := ops[|ops| - 1];
      RunInStep(serialize, services, before, s);
      var w := After(serialize, before);
      if last.BodyEnds? && last.outcome.Complete? && w.polling {
        SnapshotArrives(serialize, w, Held(serialize, before), last.outcome.snapshot, s);
        SnapshotServices(serialize, services, before);
      } else {
        OtherStepsReportNothing(serialize, w, last);
      }
    }
  }

  lemma {:induction false} SnapshotServices(serialize: Creds -> string, services: set<string>, ops: seq<Op>)
    requires ReadsServices(services, ops)
    ensures LastSnapshot(serialize, ops).Some? ==> LastSnapshot(serialize, ops).value.table.Keys == services
    decreases |ops|
  {
    if ops != [] {
      SnapshotServices(serialize, services, ops[..|ops| - 1]);
    }
  }

  /**
    A consumer that applies only each event's changed services always holds the last snapshot in which every
    service was reachable, service by service, up to what serialization can tell apart.
   */
  lemma EventsAreFaithful(serialize: Creds -> string, services: set<string>, ops: seq<Op>, s: string)
    requires ReadsServices(services, ops)
    ensures Serialized(serialize, Get(Held(serialize, ops), s))
         == Serialized(serialize, Wanted(LastSnapshot(serialize, ops), s))
    ensures (forall a, b :: serialize(a) == serialize(b) ==> a == b) ==>
      Get(Held(serialize, ops), s) == Wanted(LastSnapshot(serialize, ops), s)
  {
    RunInStep(serialize, services, ops, s);
  }

  /** An unforced poll reports exactly the services whose reading differs from the last complete one. */
  lemma UnforcedEventIsDifference(serialize: Creds -> string, services: set<string>, ops: seq<Op>, snapshot: Snapshot, s: string)
    requires ReadsServices(services, ops) && s in snapshot.table
    ensures var w := After(serialize, ops);
      s in ChangedServices(serialize, w.lastSerialized, false, snapshot) <==>
      Serialized(serialize, snapshot.table[s]) != Serialized(serialize, Wanted(LastSnapshot(serialize, ops), s))
  {
    RunInStep(serialize, services, ops, s);
  }

  /** What a poll has to report about `s`: a reading other than the last one, or, if forced, credentials that are there. */
  predicate Reportable(serialize: Creds -> string, force: bool, last: Option<Snapshot>, snapshot: Snapshot, s: string) {
    s in snapshot.table
    && (Serialized(serialize, snapshot.table[s]) != Serialized(serialize, Wanted(last, s)) || (force && snapshot.table[s].Some?))
  }

  /** The event is these services with the snapshot, and there is none if there is nothing to report. */
  ghost predicate Reports(serialize: Creds -> string, force: bool, last: Option<Snapshot>, snapshot: Snapshot, e: Option<ChangeEvent>) {
    if e == None then forall s :: !Reportable(serialize, force, last, snapshot, s)
    else
      && e.value.credentials == snapshot && e.value.changedServices != {}
      && forall s :: s in e.value.changedServices <==> Reportable(serialize, force, last, snapshot, s)
  }

  /** In every run a complete poll, forced or not, reports exactly these services, and says nothing if there are none. */
  lemma EventIsExact(serialize: Creds -> string, services: set<string>, ops: seq<Op>, snapshot: Snapshot)
    requires ReadsServices(services, ops) && After(serialize, ops).polling
    ensures var w := After(serialize, ops);
      Reports(serialize, w.bodyForce, LastSnapshot(serialize, ops), snapshot, Emitted(serialize, w, BodyEnds(Complete(snapshot))))
  {
    hide After, LastSnapshot, Wanted;
    var w := After(serialize, ops);
    var changed := ChangedServices(serialize, w.lastSerialized, w.bodyForce, snapshot);
    forall s ensures s in changed <==> Reportable(serialize, w.bodyForce, LastSnapshot(serialize, ops), snapshot, s) {
      RunInStep(serialize, services, ops, s);
    }
    hide Reportable, ChangedServices;
  }

  /** A poll that meets an outage, or throws, reports nothing and leaves the record alone. */
  lemma OutageChangesNothing(serialize: Creds -> string, w: Watcher, outcome: Outcome)
    requires !outcome.Complete?
    ensures Emitted(serialize, w, BodyEnds(outcome)) == None
    ensures Step(serialize, w, BodyEnds(outcome)).lastSerialized == w.lastSerialized
  {
  }

  // ----- The object -----

  /** The services a poll reports among the first `n` of the snapshot. */
  function ChangedAmong(serialize: Creds -> string, last: map<string, string>, force: bool, snapshot: Snapshot, n: nat): set<string>
    requires n <= |snapshot.order|
  {
    set s | s in snapshot.order[..n] && Changed(serialize, last, force, s, snapshot.table[s])
  }

  lemma NoneChanged(serialize: Creds -> string, last: map<string, string>, force: bool, snapshot: Snapshot)
    ensures ChangedAmong(serialize, last, force, snapshot, 0) == {}
  {
  }

  lemma OneMoreChanged(serialize: Creds -> string, last: map<string, string>, force: bool, snapshot: Snapshot, n: nat)
    requires n < |snapshot.order|
    ensures var s := snapshot.order[n];
      ChangedAmong(serialize, last, force, snapshot, n + 1) == ChangedAmong(serialize, last, force, snapshot, n)
        + if Changed(serialize, last, force, s, snapshot.table[s]) then {s} else {}
  {
    hide Changed;
    assert snapshot.order[..n + 1] == snapshot.order[..n] + [snapshot.order[n]];
  }

  lemma AllChanged(serialize: Creds -> string, last: map<string, string>, force: bool, snapshot: Snapshot)
    ensures ChangedAmong(serialize, last, force, snapshot, |snapshot.order|) == ChangedServices(serialize, last, force, snapshot)
  {
    hide Changed;
    assert snapshot.order[..|snapshot.order|] == snapshot.order;
  }

  class CredentialWatcher {
    const serialize: Creds -> string
    var polling: bool
    var bodyForce: bool
    var pendingPoll: bool
    var pendingForceChanged: bool
    var armed: bool
    var lastSerialized: map<string, string>

    function Model(): Watcher
      reads this
    {
      Watcher(polling, bodyForce, pendingPoll, pendingForceChanged, armed, lastSerialized)
    }

    constructor (serialize: Creds -> string)
      ensures Model() == New() && this.serialize == serialize
    {
      this.serialize := serialize;
      polling, bodyForce, pendingPoll, pendingForceChanged, armed := false, false, false, false, false;
      lastSerialized := map[];
    }

    method ScheduleCheck(forceChanged: bool)
      modifies this
      ensures Model() == Step(serialize, old(Model()), Schedule(forceChanged))
    {
      if forceChanged {
        pendingForceChanged := true;
      }
      armed := true;
    }

    method OnDebounceTimer()
      requires armed
      modifies this
      ensures Model() == Step(serialize, old(Model()), Fire)
    {
      armed := false;
      var force := pendingForceChanged;
      pendingForceChanged := false;
      StartPoll(force);
    }

    /** `pollOnce`, up to its first await. */
    method StartPoll(forceChanged: bool)
      modifies this
      ensures Model() == Step(serialize, old(Model()), Poll(forceChanged))
    {
      if polling {
        pendingPoll := true;
        if forceChanged {
          pendingForceChanged := true;
        }
        return;
      }
      polling := true;
      bodyForce := forceChanged;
    }

    /** The rest of `pollOnce`, once every read has answered; the event it hands to the callback, if any. */
    method OnPollBodyEnds(outcome: Outcome) returns (event: Option<ChangeEvent>)
      requires polling
      modifies this
      ensures Model() == Step(serialize, old(Model()), BodyEnds(outcome))
      ensures event == Emitted(serialize, old(Model()), BodyEnds(outcome))
    {
      event := None;
      if outcome.Complete? {
        var changed := CompareAndRecord(outcome.snapshot);
        if changed != {} {
          event := Some(ChangeEvent(outcome.snapshot, changed));
        }
      }
      polling := false;
      if pendingPoll {
        pendingPoll := false;
        var force := pendingForceChanged;
        pendingForceChanged := false;
        StartPoll(force);
      }
    }

    method CompareAndRecord(credentials: Snapshot) returns (changedServices: set<string>)
      modifies this`lastSerialized
      ensures lastSerialized == Record(serialize, old(lastSerialized), credentials)
      ensures changedServices == ChangedServices(serialize, old(lastSerialized), bodyForce, credentials)
    {
      hide ChangedServices, ChangedAmong;
      changedServices := {};
      ghost var was := lastSerialized;
      NoneChanged(serialize, was, bodyForce, credentials);
      for n := 0 to |credentials.order|
        invariant lastSerialized == Recorded(serialize, was, credentials, n)
        invariant changedServices == ChangedAmong(serialize, was, bodyForce, credentials, n)
      {
        var service := credentials.order[n];
        RecordedAt(serialize, was, credentials, n, service);
        assert service !in credentials.order[..n];
        OneMoreChanged(serialize, was, bodyForce, credentials, n);
        var creds := credentials.table[service];
        var newVal := if creds.Some? then Some(serialize(creds.value)) else None;
        var oldVal := Get(lastSerialized, service);
        if newVal != oldVal || (bodyForce && newVal.Some?) {
          changedServices := changedServices + {service};
          lastSerialized := if newVal.Some? then lastSerialized[service := newVal.value] else lastSerialized - {service};
        }
      }
      AllChanged(serialize, was, bodyForce, credentials);
    }

    method StopWatching()
      modifies this
      ensures Model() == Step(serialize, old(Model()), Stop)
    {
      armed := false;
      pendingPoll := false;
    }
  }
}
