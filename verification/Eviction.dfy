/**
  The eviction that both dedup caches share: at capacity, sweep what has lapsed, and if that is not enough drop
  the first key. How long a key survives it depends on the live keys behind it.
 */
module Eviction {
  import opened JsMaps

  /** How many entries there is room for; a capacity below one still lets one key in. */
  function Room(maxSize: int): int {
    if maxSize < 1 then 1 else maxSize
  }

  /** The keys whose entries are live. */
  function LiveIn<K, V>(m: JsMap<K, V>, lives: V -> bool): set<K> {
    set k | k in m.table && lives(m.table[k])
  }

  function Swept<K, V>(m: JsMap<K, V>, lives: V -> bool): JsMap<K, V> {
    m.Restrict(LiveIn(m, lives))
  }

  /** Make room for one entry. */
  function Roomy<K, V>(m: JsMap<K, V>, maxSize: int, lives: V -> bool): JsMap<K, V> {
    if |m.order| < maxSize then m
    else
      var swept := Swept(m, lives);
      if |swept.order| < maxSize || swept.order == [] then swept else swept.Delete(swept.order[0])
  }

  /** The live keys behind `key` in the eviction order. */
  function Behind<K, V>(m: JsMap<K, V>, key: K, lives: V -> bool): seq<K> {
    Keep(Later(m.order, key), LiveIn(m, lives))
  }

  lemma SweptValid<K, V>(m: JsMap<K, V>, lives: V -> bool)
    requires m.Valid()
    ensures Swept(m, lives).Valid() && |Swept(m, lives).order| <= |m.order|
    ensures forall k :: k in Swept(m, lives).table ==>
      k in m.table && lives(m.table[k]) && Swept(m, lives).table[k] == m.table[k]
    ensures forall k :: k in m.table && lives(m.table[k]) ==> k in Swept(m, lives).table
  {
    RestrictValid(m, LiveIn(m, lives));
  }

  lemma RoomyValid<K, V>(m: JsMap<K, V>, maxSize: int, lives: V -> bool)
    requires m.Valid()
    ensures Roomy(m, maxSize, lives).Valid()
    ensures forall k :: k in Roomy(m, maxSize, lives).table ==> k in m.table && Roomy(m, maxSize, lives).table[k] == m.table[k]
    ensures |m.order| <= Room(maxSize) ==> |Roomy(m, maxSize, lives).order| < Room(maxSize)
    ensures |Roomy(m, maxSize, lives).order| < maxSize || Roomy(m, maxSize, lives).order == []
            || |Roomy(m, maxSize, lives).order| < |m.order|
  {
    hide Swept, JsMap.Delete;
    SweptValid(m, lives);
    var swept := Swept(m, lives);
    if swept.order != [] {
      DeleteValid(swept, swept.order[0]);
    }
  }

  // ----- A key with few live keys behind it survives -----

  /** `key` is there, and at most `n` live keys stand behind it. */
  ghost predicate Guarded<K, V>(m: JsMap<K, V>, key: K, lives: V -> bool, n: int) {
    m.Valid() && key in m.table && |Behind(m, key, lives)| <= n
  }

  lemma RestrictGuards<K, V>(m: JsMap<K, V>, kept: set<K>, key: K, lives: V -> bool, n: int)
    requires Guarded(m, key, lives, n) && key in kept
    ensures Guarded(m.Restrict(kept), key, lives, n) && m.Restrict(kept).table[key] == m.table[key]
  {
    var r := m.Restrict(kept);
    RestrictValid(m, kept);
    LaterKeep(m.order, kept, key);
    KeepTwice(Later(m.order, key), kept, LiveIn(r, lives));
    KeepMore(Later(m.order, key), kept * LiveIn(r, lives), LiveIn(m, lives));
  }

  lemma DeleteGuards<K, V>(m: JsMap<K, V>, x: K, key: K, lives: V -> bool, n: int)
    requires Guarded(m, key, lives, n) && x != key
    ensures Guarded(m.Delete(x), key, lives, n) && m.Delete(x).table[key] == m.table[key]
  {
    hide Guarded, JsMap.Restrict;
    assert key in m.table by { GuardedIsThere(m, key, lives, n); }
    RestrictGuards(m, m.table.Keys - {x}, key, lives, n);
  }

  lemma GuardedIsThere<K, V>(m: JsMap<K, V>, key: K, lives: V -> bool, n: int)
    requires Guarded(m, key, lives, n)
    ensures m.Valid() && key in m.table && key in m.order
  {
  }

  lemma SweptGuards<K, V>(m: JsMap<K, V>, now: V -> bool, key: K, lives: V -> bool, n: int)
    requires Guarded(m, key, lives, n) && now(m.table[key])
    ensures Guarded(Swept(m, now), key, lives, n) && Swept(m, now).table[key] == m.table[key]
  {
    RestrictGuards(m, LiveIn(m, now), key, lives, n);
  }

  /** Right after a sweep, the first key has all others live behind it. */
  lemma SweptFirst<K, V>(m: JsMap<K, V>, now: V -> bool, key: K, lives: V -> bool)
    requires m.Valid() && forall v :: now(v) ==> lives(v)
    ensures var swept := Swept(m, now);
      swept.order != [] && swept.order[0] == key ==> |Behind(swept, key, lives)| == |swept.order| - 1
  {
    var swept := Swept(m, now);
    SweptValid(m, now);
    if swept.order != [] && swept.order[0] == key {
      LaterThanFirst(swept.order, key);
      forall x | x in swept.order[1..] ensures x in LiveIn(swept, lives) {
        assert x in swept.order;
      }
      KeepAll(swept.order[1..], LiveIn(swept, lives));
    }
  }

  lemma RoomyGuards<K, V>(m: JsMap<K, V>, maxSize: int, now: V -> bool, key: K, lives: V -> bool, n: int)
    requires Guarded(m, key, lives, n) && now(m.table[key]) && n + 1 < maxSize && forall v :: now(v) ==> lives(v)
    ensures Guarded(Roomy(m, maxSize, now), key, lives, n) && Roomy(m, maxSize, now).table[key] == m.table[key]
  {
    hide Behind, Swept, JsMap.Delete;
    SweptGuards(m, now, key, lives, n);
    SweptFirst(m, now, key, lives);
    var swept := Swept(m, now);
    if |swept.order| >= maxSize && |m.order| >= maxSize {
      DeleteGuards(swept, swept.order[0], key, lives, n);
    }
  }

  /** Setting an entry makes at most one more key live behind `key`, and none if it is the entry of `key`. */
  lemma SetGuards<K, V>(m: JsMap<K, V>, x: K, v: V, key: K, lives: V -> bool, n: int)
    requires Guarded(m, key, lives, n)
    ensures Guarded(m.Set(x, v), key, lives, if x == key then n else n + 1)
    ensures x != key ==> m.Set(x, v).table[key] == m.table[key]
  {
    var d := m.Set(x, v);
    var behind := Later(m.order, key);
    SetValid(m, x, v);
    LaterMembers(m.order, key);
    KeepOneMore(behind, LiveIn(m, lives), x);
    assert LiveIn(d, lives) <= LiveIn(m, lives) + {x};
    KeepMore(behind, LiveIn(d, lives), LiveIn(m, lives) + {x});
    if x !in m.table {
      LaterAppend(m.order, [x], key);
      KeepAppend(behind, [x], LiveIn(d, lives));
      KeepMembers([x], LiveIn(d, lives));
      assert x !in behind;
    }
  }

  /** A key set at the end has nothing behind it. */
  lemma SetLast<K, V>(m: JsMap<K, V>, key: K, v: V, lives: V -> bool)
    requires m.Valid() && key !in m.table
    ensures Behind(m.Set(key, v), key, lives) == []
  {
    LaterEnd(m.order, key);
  }

  /** Setting the entry of a key that is there changes nothing behind it. */
  lemma SetSame<K, V>(m: JsMap<K, V>, key: K, v: V, lives: V -> bool)
    requires m.Valid() && key in m.table
    ensures Behind(m.Set(key, v), key, lives) == Behind(m, key, lives)
  {
    LaterMembers(m.order, key);
    KeepSame(Later(m.order, key), LiveIn(m.Set(key, v), lives), LiveIn(m, lives));
  }

  // ----- Exact counts -----

  /** The live keys behind `key` and `key` itself are in the order; if they are all of it, `key` comes first. */
  lemma BehindFits<K, V>(m: JsMap<K, V>, key: K, lives: V -> bool)
    requires m.Valid() && key in m.table
    ensures |Behind(m, key, lives)| + 1 <= |m.order|
    ensures m.order != [] && m.order[0] != key ==> |Behind(m, key, lives)| + 1 < |m.order|
  {
    assert key in m.order;
    KeepMembers(Later(m.order, key), LiveIn(m, lives));
    LaterMembers(m.order, key);
    LaterThanFirst(m.order, key);
  }

  /** A sweep changes no count of live keys. */
  lemma SweptCounts<K, V>(m: JsMap<K, V>, key: K, lives: V -> bool)
    requires m.Valid() && key in m.table && lives(m.table[key])
    ensures key in Swept(m, lives).table && Behind(Swept(m, lives), key, lives) == Behind(m, key, lives)
  {
    var swept := Swept(m, lives);
    SweptValid(m, lives);
    assert LiveIn(swept, lives) == LiveIn(m, lives);
    assert key in m.order;
    LaterKeep(m.order, LiveIn(m, lives), key);
    KeepTwice(Later(m.order, key), LiveIn(m, lives), LiveIn(m, lives));
    assert LiveIn(m, lives) * LiveIn(m, lives) == LiveIn(m, lives);
  }

  /** Dropping the first key, when it is another, changes no count. */
  lemma DropFirstCounts<K, V>(m: JsMap<K, V>, key: K, lives: V -> bool)
    requires m.Valid() && key in m.table && m.order != [] && m.order[0] != key
    ensures var d := m.Delete(m.order[0]); key in d.table && Behind(d, key, lives) == Behind(m, key, lives)
  {
    var kept := m.table.Keys - {m.order[0]};
    var d := m.Delete(m.order[0]);
    RestrictValid(m, kept);
    assert key in m.order;
    LaterThanFirst(m.order, key);
    LaterMembers(m.order, key);
    LaterKeep(m.order, kept, key);
    var behind := Later(m.order, key);
    KeepAll(behind, kept);
    KeepSame(behind, LiveIn(d, lives), LiveIn(m, lives));
  }

  /** Deleting a key that is not live changes no count. */
  lemma DeleteDeadCounts<K, V>(m: JsMap<K, V>, x: K, key: K, lives: V -> bool)
    requires m.Valid() && key in m.table && x != key && (x in m.table ==> !lives(m.table[x]))
    ensures key in m.Delete(x).table && m.Delete(x).table[key] == m.table[key]
    ensures Behind(m.Delete(x), key, lives) == Behind(m, key, lives)
  {
    var kept := m.table.Keys - {x};
    var d := m.Delete(x);
    RestrictValid(m, kept);
    assert key in m.order;
    LaterKeep(m.order, kept, key);
    KeepTwice(Later(m.order, key), kept, LiveIn(d, lives));
    assert kept * LiveIn(d, lives) == LiveIn(m, lives);
  }

  /** The entry of `key` stays when room is made: the map is not full, or the key is live and not all others are behind it. */
  predicate Stays<K, V>(m: JsMap<K, V>, maxSize: int, key: K, lives: V -> bool)
    requires key in m.table
  {
    |m.order| < maxSize || (lives(m.table[key]) && |Behind(m, key, lives)| + 1 < Room(maxSize))
  }

  /** Making room keeps a key with the same live keys behind it, or takes it. */
  lemma RoomyCounts<K, V>(m: JsMap<K, V>, maxSize: int, key: K, lives: V -> bool)
    requires m.Valid() && key in m.table && |m.order| <= Room(maxSize)
    ensures key in Roomy(m, maxSize, lives).table <==> Stays(m, maxSize, key, lives)
    ensures Stays(m, maxSize, key, lives) ==> Behind(Roomy(m, maxSize, lives), key, lives) == Behind(m, key, lives)
  {
    hide Behind, Swept, JsMap.Delete;
    var swept := Swept(m, lives);
    SweptValid(m, lives);
    if |m.order| >= maxSize {
      if lives(m.table[key]) {
        SweptCounts(m, key, lives);
        SweptFirst(m, lives, key, lives);
        BehindFits(swept, key, lives);
        if |swept.order| >= maxSize {
          DeleteValid(swept, swept.order[0]);
          if swept.order[0] != key {
            DropFirstCounts(swept, key, lives);
          }
        }
      } else if swept.order != [] {
        DeleteValid(swept, swept.order[0]);
      }
    }
  }

  /** A new live key set at the end stands behind every other. */
  lemma SetCounts<K, V>(m: JsMap<K, V>, x: K, v: V, key: K, lives: V -> bool)
    requires m.Valid() && key in m.table && x !in m.table && lives(v)
    ensures |Behind(m.Set(x, v), key, lives)| == |Behind(m, key, lives)| + 1
  {
    var d := m.Set(x, v);
    var behind := Later(m.order, key);
    assert key in m.order;
    LaterMembers(m.order, key);
    LaterAppend(m.order, [x], key);
    assert LiveIn(d, lives) == LiveIn(m, lives) + {x};
    KeepAppend(behind, [x], LiveIn(d, lives));
    assert Keep([x], LiveIn(d, lives)) == [x];
    KeepOneMore(behind, LiveIn(m, lives), x);
  }

  /** Making room and setting the entry of `key`. */
  function Inserted<K, V>(m: JsMap<K, V>, maxSize: int, key: K, v: V, lives: V -> bool): JsMap<K, V> {
    Roomy(m, maxSize, lives).Set(key, v)
  }

  /**
    What stands behind a key after its own insertion: what stood behind it before, if it was there and stayed
    when room was made; nothing, if it was not there or did not stay.
   */
  lemma InsertedPlace<K, V>(m: JsMap<K, V>, maxSize: int, key: K, v: V, lives: V -> bool)
    requires m.Valid() && |m.order| <= Room(maxSize)
    ensures Behind(Inserted(m, maxSize, key, v, lives), key, lives)
         == if key in m.table && Stays(m, maxSize, key, lives) then Behind(m, key, lives) else []
  {
    hide Behind, Roomy, JsMap.Set, Stays;
    var roomy := Roomy(m, maxSize, lives);
    RoomyValid(m, maxSize, lives);
    if key in m.table {
      RoomyCounts(m, maxSize, key, lives);
    }
    if key in roomy.table {
      SetSame(roomy, key, v, lives);
    } else {
      SetLast(roomy, key, v, lives);
    }
  }

  /** Whatever is counted: after its own insertion no more keys are behind a key than before. */
  lemma InsertedBehind<K, V>(m: JsMap<K, V>, maxSize: int, key: K, v: V, now: V -> bool, lives: V -> bool, n: nat)
    requires Guarded(m, key, lives, n) && forall w :: now(w) ==> lives(w)
    ensures |Behind(Inserted(m, maxSize, key, v, now), key, now)| <= n
  {
    hide Roomy, JsMap.Set;
    var roomy := Roomy(m, maxSize, now);
    RoomyValid(m, maxSize, now);
    if key in roomy.table {
      SetSame(roomy, key, v, now);
      RoomyBehind(m, maxSize, now, key, lives);
    } else {
      SetLast(roomy, key, v, now);
    }
  }

  lemma RestrictBehind<K, V>(m: JsMap<K, V>, kept: set<K>, key: K, lives: V -> bool)
    requires m.Valid() && key in m.Restrict(kept).table
    ensures |Behind(m.Restrict(kept), key, lives)| <= |Behind(m, key, lives)|
  {
    RestrictValid(m, kept);
    RestrictGuards(m, kept, key, lives, |Behind(m, key, lives)|);
  }

  lemma FewerLive<K, V>(m: JsMap<K, V>, key: K, now: V -> bool, lives: V -> bool)
    requires forall w :: now(w) ==> lives(w)
    ensures |Behind(m, key, now)| <= |Behind(m, key, lives)|
  {
    KeepMore(Later(m.order, key), LiveIn(m, now), LiveIn(m, lives));
  }

  lemma RoomyBehind<K, V>(m: JsMap<K, V>, maxSize: int, now: V -> bool, key: K, lives: V -> bool)
    requires m.Valid() && key in Roomy(m, maxSize, now).table && forall w :: now(w) ==> lives(w)
    ensures |Behind(Roomy(m, maxSize, now), key, now)| <= |Behind(m, key, lives)|
  {
    hide Behind, JsMap.Restrict;
    var swept := Swept(m, now);
    FewerLive(m, key, now, lives);
    SweptValid(m, now);
    if swept.order != [] {
      DeleteValid(swept, swept.order[0]);
    }
    if key in swept.table {
      RestrictBehind(m, LiveIn(m, now), key, now);
      if swept.order != [] && key in swept.Delete(swept.order[0]).table {
        RestrictBehind(swept, swept.table.Keys - {swept.order[0]}, key, now);
      }
    }
  }

  /**
    A new live key goes behind `key`, or, if the live keys behind `key` take all the other room, `key` goes.
   */
  lemma InsertedCounts<K, V>(m: JsMap<K, V>, maxSize: int, x: K, v: V, key: K, lives: V -> bool)
    requires m.Valid() && |m.order| <= Room(maxSize) && key in m.table && lives(m.table[key])
    requires x !in m.table && lives(v)
    ensures var d, n := Inserted(m, maxSize, x, v, lives), |Behind(m, key, lives)|;
      && d.Valid() && |d.order| <= Room(maxSize)
      && (forall k :: k in d.table ==> k == x || k in m.table)
      && (n + 1 < Room(maxSize) ==> key in d.table && d.table[key] == m.table[key] && |Behind(d, key, lives)| == n + 1)
      && (n + 1 >= Room(maxSize) ==> key !in d.table)
  {
    hide Behind, Roomy;
    RoomyValid(m, maxSize, lives);
    RoomyCounts(m, maxSize, key, lives);
    BehindFits(m, key, lives);
    var roomy := Roomy(m, maxSize, lives);
    SetValid(roomy, x, v);
    if key in roomy.table {
      SetCounts(roomy, x, v, key, lives);
    }
  }
}
