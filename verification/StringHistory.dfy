/** Which keys the string-keyed dedup cache knows, told by the calls and the answers they got. */
module StringHistory {
  import opened JsMaps
  import opened StringDedup
  import Eviction

  /** `call` gives `key` an entry: a mark, or a `seen` that answered false. */
  predicate MarksKey(c: Cache, call: Call, key: string) {
    Marks(c, call) && call.op.key == key
  }

  /** `call` adds another key's entry while the live keys behind `key` leave no other place: `key` is pushed out. */
  predicate PushesOut(c: Cache, call: Call, key: string) {
    Marks(c, call) && call.op.key != key && |Behind(c, key, call.now)| + 1 >= Eviction.Room(c.maxSize)
  }

  /** Call `i` marks `key`, and no later call marks it again or pushes it out. */
  predicate Standing(ttlMs: int, maxSize: int, calls: seq<Call>, i: nat, key: string) {
    && i < |calls|
    && MarksKey(After(ttlMs, maxSize, calls[..i]), calls[i], key)
    && forall j :: i < j < |calls| ==>
      !MarksKey(After(ttlMs, maxSize, calls[..j]), calls[j], key) && !PushesOut(After(ttlMs, maxSize, calls[..j]), calls[j], key)
  }

  // ----- One call -----

  lemma MarkLeaves(c: Cache, x: string, now: int, key: string)
    requires c.entries.Valid() && |c.entries.order| <= Eviction.Room(c.maxSize) && key in c.entries.table && x != key
    ensures |Behind(c, key, now)| + 1 >= Eviction.Room(c.maxSize) ==> key !in Mark(c, x, now).entries.table
    ensures c.Live(key, now) && |Behind(c, key, now)| + 1 < Eviction.Room(c.maxSize) ==>
      key in Mark(c, x, now).entries.table
    ensures key in Mark(c, x, now).entries.table ==> Mark(c, x, now).entries.table[key] == c.entries.table[key]
  {
    hide Eviction.Behind, Eviction.Roomy;
    Eviction.RoomyValid(c.entries, c.maxSize, LivesAt(now));
    Eviction.RoomyCounts(c.entries, c.maxSize, key, LivesAt(now));
    Eviction.BehindFits(c.entries, key, LivesAt(now));
  }

  lemma AskLeaves(c: Cache, x: string, now: int, key: string)
    requires c.entries.Valid()
    ensures Ask(c, x, now).entries.Valid() && |Ask(c, x, now).entries.order| <= |c.entries.order|
    ensures Ask(c, x, now) == c.(entries := Ask(c, x, now).entries)
    ensures key in Ask(c, x, now).entries.table ==>
      key in c.entries.table && Ask(c, x, now).entries.table[key] == c.entries.table[key]
    ensures key in c.entries.table && (x != key || c.Live(key, now)) ==> key in Ask(c, x, now).entries.table
    ensures key in c.entries.table && x != key ==> Behind(Ask(c, x, now), key, now) == Behind(c, key, now)
  {
    hide Eviction.Behind, JsMap.Delete;
    DeleteValid(c.entries, x);
    if key in c.entries.table && x != key && x in c.entries.table && !c.Live(x, now) {
      Eviction.DeleteDeadCounts(c.entries, x, key, LivesAt(now));
    }
  }

  lemma SeenLeaves(c: Cache, x: string, now: int, key: string)
    requires c.entries.Valid() && |c.entries.order| <= Eviction.Room(c.maxSize) && key in c.entries.table && x != key
    ensures var d := Mark(Ask(c, x, now), x, now);
      && (|Behind(c, key, now)| + 1 >= Eviction.Room(c.maxSize) ==> key !in d.entries.table)
      && (c.Live(key, now) && |Behind(c, key, now)| + 1 < Eviction.Room(c.maxSize) ==> key in d.entries.table)
      && (key in d.entries.table ==> d.entries.table[key] == c.entries.table[key])
  {
    hide Mark, Ask, Behind;
    AskLeaves(c, x, now, key);
    MarkLeaves(Ask(c, x, now), x, now, key);
  }

  lemma MarkOnly(c: Cache, x: string, now: int, key: string)
    requires c.entries.Valid() && key !in c.entries.table && x != key
    ensures key !in Mark(c, x, now).entries.table
  {
    hide Eviction.Roomy;
    Eviction.RoomyValid(c.entries, c.maxSize, LivesAt(now));
  }

  /** What a mark gives its key. */
  lemma StepMarks(c: Cache, call: Call, key: string)
    requires c.entries.Valid() && MarksKey(c, call, key)
    ensures key in Step(c, call).entries.table && Step(c, call).entries.table[key] == call.now + c.ttlMs
  {
    hide Mark, Ask;
    AskLeaves(c, key, call.now, key);
    MarkValid(c, key, call.now);
    MarkValid(Ask(c, key, call.now), key, call.now);
  }

  /** A call that neither marks the key nor pushes it out leaves its live entry as it is. */
  lemma StepLeaves(c: Cache, call: Call, key: string)
    requires c.entries.Valid() && |c.entries.order| <= Eviction.Room(c.maxSize) && c.Live(key, call.now)
    requires !MarksKey(c, call, key) && !PushesOut(c, call, key)
    ensures key in Step(c, call).entries.table && Step(c, call).entries.table[key] == c.entries.table[key]
  {
    hide Mark, Ask, Behind, Eviction.Swept;
    match call.op
    case HasOp(x) => AskLeaves(c, x, call.now, key);
    case SeenOp(x) => if !c.Knows(x, call.now) { SeenLeaves(c, x, call.now, key); }
    case ReserveOp(x) => AskLeaves(c, x, call.now, key);
    case UnreserveOp(_) =>
    case MarkOp(x) => MarkLeaves(c, x, call.now, key);
    case SweepOp => Eviction.SweptValid(c.entries, LivesAt(call.now));
  }

  /** An entry that is there was marked by this call, or was there before and not pushed out. */
  lemma StepOrigin(c: Cache, call: Call, key: string)
    requires c.entries.Valid() && |c.entries.order| <= Eviction.Room(c.maxSize)
    requires key in Step(c, call).entries.table && !MarksKey(c, call, key)
    ensures key in c.entries.table && Step(c, call).entries.table[key] == c.entries.table[key]
    ensures !PushesOut(c, call, key)
  {
    hide Mark, Ask, Behind, Eviction.Swept;
    match call.op
    case HasOp(x) => AskLeaves(c, x, call.now, key);
    case SeenOp(x) =>
      if !c.Knows(x, call.now) {
        AskLeaves(c, x, call.now, key);
        if key in c.entries.table {
          SeenLeaves(c, x, call.now, key);
        } else {
          MarkOnly(Ask(c, x, call.now), x, call.now, key);
        }
      }
    case ReserveOp(x) => AskLeaves(c, x, call.now, key);
    case UnreserveOp(_) =>
    case MarkOp(x) =>
      if key in c.entries.table {
        MarkLeaves(c, x, call.now, key);
      } else {
        MarkOnly(c, x, call.now, key);
      }
    case SweepOp => Eviction.SweptValid(c.entries, LivesAt(call.now));
  }

  // ----- Runs -----

  lemma LastCall(ttlMs: int, maxSize: int, calls: seq<Call>)
    requires calls != []
    ensures After(ttlMs, maxSize, calls) == Step(After(ttlMs, maxSize, calls[..|calls| - 1]), calls[|calls| - 1])
  {
    hide Step;
  }

  lemma StandingBefore(ttlMs: int, maxSize: int, calls: seq<Call>, i: nat, key: string)
    requires calls != [] && i < |calls| - 1
    ensures var before, last := calls[..|calls| - 1], calls[|calls| - 1];
      Standing(ttlMs, maxSize, calls, i, key)
      <==> Standing(ttlMs, maxSize, before, i, key)
           && !MarksKey(After(ttlMs, maxSize, before), last, key) && !PushesOut(After(ttlMs, maxSize, before), last, key)
  {
    hide MarksKey, PushesOut, Run;
    var before := calls[..|calls| - 1];
    assert before[..i] == calls[..i];
    forall j: nat | i < j < |before| ensures before[..j] == calls[..j] && before[j] == calls[j] {
    }
  }

  lemma StandingNow(ttlMs: int, maxSize: int, calls: seq<Call>, key: string)
    requires calls != []
    ensures Standing(ttlMs, maxSize, calls, |calls| - 1, key)
      <==> MarksKey(After(ttlMs, maxSize, calls[..|calls| - 1]), calls[|calls| - 1], key)
  {
    hide MarksKey, PushesOut, Run;
  }

  /** The entry of `key` lapses `ttlMs` after call `i`. */
  predicate LapsesFrom(ttlMs: int, maxSize: int, calls: seq<Call>, i: nat, key: string)
    requires i < |calls|
  {
    var c := After(ttlMs, maxSize, calls);
    key in c.entries.table && c.entries.table[key] == calls[i].now + ttlMs
  }

  /** A mark that stands is what the entry comes from, as long as no call came after its lifetime. */
  lemma {:induction false} StandingHolds(ttlMs: int, maxSize: int, calls: seq<Call>, i: nat, key: string)
    requires Standing(ttlMs, maxSize, calls, i, key)
    requires forall j :: i < j < |calls| ==> calls[j].now <= calls[i].now + ttlMs
    ensures LapsesFrom(ttlMs, maxSize, calls, i, key)
    decreases |calls|
  {
    hide Run, MarksKey, PushesOut, Step;
    var n := |calls| - 1;
    SizeBounded(ttlMs, maxSize, calls[..n]);
    LastCall(ttlMs, maxSize, calls);
    if i == n {
      StepMarks(After(ttlMs, maxSize, calls[..n]), calls[n], key);
    } else {
      StandingBefore(ttlMs, maxSize, calls, i, key);
      StandingHolds(ttlMs, maxSize, calls[..n], i, key);
      StepLeaves(After(ttlMs, maxSize, calls[..n]), calls[n], key);
    }
  }

  /** Whatever entry a key has comes from a mark that stands. */
  lemma {:induction false} EntryHasMark(ttlMs: int, maxSize: int, calls: seq<Call>, key: string) returns (i: nat)
    requires key in After(ttlMs, maxSize, calls).entries.table
    ensures Standing(ttlMs, maxSize, calls, i, key) && LapsesFrom(ttlMs, maxSize, calls, i, key)
    decreases |calls|
  {
    hide Run, MarksKey, PushesOut, Step, Standing;
    if calls == [] {
      NothingAtFirst(ttlMs, maxSize);
    }
    i := |calls| - 1;
    var n := i;
    var c := After(ttlMs, maxSize, calls[..n]);
    SizeBounded(ttlMs, maxSize, calls[..n]);
    LastCall(ttlMs, maxSize, calls);
    if MarksKey(c, calls[n], key) {
      StandingNow(ttlMs, maxSize, calls, key);
      StepMarks(c, calls[n], key);
    } else {
      StepOrigin(c, calls[n], key);
      i := EntryHasMark(ttlMs, maxSize, calls[..n], key);
      StandingIn(ttlMs, maxSize, calls[..n], i, key);
      StandingBefore(ttlMs, maxSize, calls, i, key);
    }
  }

  lemma StandingIn(ttlMs: int, maxSize: int, calls: seq<Call>, i: nat, key: string)
    requires Standing(ttlMs, maxSize, calls, i, key)
    ensures i < |calls|
  {
  }

  lemma NothingAtFirst(ttlMs: int, maxSize: int)
    ensures After(ttlMs, maxSize, []).entries.table == map[]
  {
  }

  /** `key` was marked within the last `ttlMs`, and nothing has pushed it out since. */
  ghost predicate MarkedWithin(ttlMs: int, maxSize: int, calls: seq<Call>, key: string, now: int) {
    exists i: nat :: Standing(ttlMs, maxSize, calls, i, key) && now <= calls[i].now + ttlMs
  }

  /**
    A key is known if and only if a handler holds it, or it was marked within the last `ttlMs` and nothing has
    pushed it out since; no longer, and by nothing else.
   */
  lemma KnownFollowsTheCalls(ttlMs: int, maxSize: int, calls: seq<Call>, key: string, now: int)
    requires forall j :: 0 <= j < |calls| ==> calls[j].now <= now
    ensures After(ttlMs, maxSize, calls).Knows(key, now)
      <==> Held(ttlMs, maxSize, calls, key) || MarkedWithin(ttlMs, maxSize, calls, key, now)
  {
    hide After, MarksKey, PushesOut, Held;
    ProcessingIsHeld(ttlMs, maxSize, calls, key);
    if MarkedWithin(ttlMs, maxSize, calls, key, now) {
      var i: nat :| Standing(ttlMs, maxSize, calls, i, key) && now <= calls[i].now + ttlMs;
      StandingHolds(ttlMs, maxSize, calls, i, key);
    }
    if After(ttlMs, maxSize, calls).Live(key, now) {
      var i := EntryHasMark(ttlMs, maxSize, calls, key);
      assert Standing(ttlMs, maxSize, calls, i, key) && now <= calls[i].now + ttlMs;
    }
  }

  /** Asking for a key that is not known leaves no lapsed entry of it, and a sweep leaves none at all. */
  lemma LapsedAreDropped(ttlMs: int, maxSize: int, calls: seq<Call>, call: Call)
    ensures var c, d := After(ttlMs, maxSize, calls), After(ttlMs, maxSize, calls + [call]);
      && ((call.op.HasOp? || call.op.ReserveOp?) && !c.Knows(call.op.key, call.now) ==>
            call.op.key !in d.entries.table)
      && (call.op.SweepOp? ==> forall key :: key in d.entries.table ==> call.now <= d.entries.table[key])
  {
    hide Run, JsMap.Delete, Eviction.Swept;
    var c := After(ttlMs, maxSize, calls);
    SizeBounded(ttlMs, maxSize, calls);
    assert (calls + [call])[..|calls|] == calls;
    LastCall(ttlMs, maxSize, calls + [call]);
    Eviction.SweptValid(c.entries, LivesAt(call.now));
    if !call.op.SweepOp? {
      DeleteValid(c.entries, call.op.key);
    }
  }
}
