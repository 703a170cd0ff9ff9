/** An optional value: a `T`, or JavaScript's `undefined`. */
module Options {
  datatype Option<+T> = None | Some(value: T)
}

/**
  JavaScript's `Map`: a lookup table whose keys are also kept in insertion order. Setting a key that is
  present keeps its place; deleting and setting it again moves it to the end.
 */
module JsMaps {

  /** The elements of `s` that are in `live`, in their order. */
  function Keep<K>(s: seq<K>, live: set<K>): seq<K> {
    if s == [] then []
    else (if s[0] in live then [s[0]] else []) + Keep(s[1..], live)
  }

  /** The elements of `s` that come after the first `k`. */
  function Later<K(==)>(s: seq<K>, k: K): seq<K> {
    if s == [] then [] else if s[0] == k then s[1..] else Later(s[1..], k)
  }

  ghost predicate Unique<K>(s: seq<K>) {
    forall i, j :: 0 <= i < j < |s| ==> s[i] != s[j]
  }

  datatype JsMap<K(==), V> = JsMap(order: seq<K>, table: map<K, V>) {
    ghost predicate Valid() {
      && Unique(order)
      && (forall k :: k in order ==> k in table)
      && (forall k :: k in table ==> k in order)
    }

    function Set(k: K, v: V): JsMap<K, V> {
      JsMap(if k in table then order else order + [k], table[k := v])
    }

    /** Delete every key outside `live`. */
    function Restrict(live: set<K>): JsMap<K, V> {
      JsMap(Keep(order, live), table - (table.Keys - live))
    }

    function Delete(k: K): JsMap<K, V> {
      Restrict(table.Keys - {k})
    }
  }

  function Empty<K(==), V>(): JsMap<K, V> {
    JsMap([], map[])
  }

  lemma {:induction false} KeepMembers<K>(s: seq<K>, live: set<K>)
    ensures forall x :: x in Keep(s, live) ==> x in s && x in live
    ensures forall x :: x in s && x in live ==> x in Keep(s, live)
    ensures |Keep(s, live)| <= |s|
  {
    if s != [] {
      KeepMembers(s[1..], live);
      assert s == [s[0]] + s[1..];
    }
  }

  lemma {:induction false} KeepUnique<K>(s: seq<K>, live: set<K>)
    requires Unique(s)
    ensures Unique(Keep(s, live))
  {
    if s != [] {
      assert Unique(s[1..]);
      KeepUnique(s[1..], live);
      KeepMembers(s[1..], live);
      assert s[0] !in s[1..];
    }
  }

  lemma {:induction false} KeepAll<K>(s: seq<K>, live: set<K>)
    requires forall x :: x in s ==> x in live
    ensures Keep(s, live) == s
  {
    if s != [] {
      assert forall x :: x in s[1..] ==> x in s;
      KeepAll(s[1..], live);
    }
  }

  lemma {:induction false} KeepAppend<K>(a: seq<K>, b: seq<K>, live: set<K>)
    ensures Keep(a + b, live) == Keep(a, live) + Keep(b, live)
  {
    if a == [] {
      assert a + b == b;
    } else {
      KeepAppend(a[1..], b, live);
      KeepFirst(a[0], a[1..], live);
      KeepFirst(a[0], a[1..] + b, live);
      hide Keep;
      assert a == [a[0]] + a[1..];
      assert a + b == [a[0]] + (a[1..] + b);
    }
  }

  lemma KeepFirst<K>(x: K, rest: seq<K>, live: set<K>)
    ensures Keep([x] + rest, live) == (if x in live then [x] else []) + Keep(rest, live)
  {
    assert ([x] + rest)[1..] == rest;
  }

  /** Only membership of the elements of `s` matters to `Keep`. */
  lemma {:induction false} KeepSame<K>(s: seq<K>, live: set<K>, live': set<K>)
    requires forall x :: x in s ==> (x in live <==> x in live')
    ensures Keep(s, live) == Keep(s, live')
  {
    if s != [] {
      assert forall x :: x in s[1..] ==> x in s;
      assert s[0] in s;
      KeepSame(s[1..], live, live');
    }
  }

  lemma {:induction false} KeepTwice<K>(s: seq<K>, live: set<K>, live': set<K>)
    ensures Keep(Keep(s, live), live') == Keep(s, live * live')
  {
    if s != [] {
      KeepTwice(s[1..], live, live');
      KeepAppend(if s[0] in live then [s[0]] else [], Keep(s[1..], live), live');
    }
  }

  /** More live keys keep more. */
  lemma {:induction false} KeepMore<K>(s: seq<K>, live: set<K>, more: set<K>)
    requires live <= more
    ensures |Keep(s, live)| <= |Keep(s, more)|
  {
    if s != [] {
      KeepMore(s[1..], live, more);
    }
  }

  /** One more live key keeps at most one more. */
  lemma {:induction false} KeepOneMore<K>(s: seq<K>, live: set<K>, x: K)
    requires Unique(s)
    ensures |Keep(s, live + {x})| <= |Keep(s, live)| + 1
    ensures x !in s ==> Keep(s, live + {x}) == Keep(s, live)
  {
    if s != [] {
      assert Unique(s[1..]);
      if s[0] == x {
        KeepSame(s[1..], live, live + {x});
      } else {
        KeepOneMore(s[1..], live, x);
        assert x in s[1..] ==> x in s;
      }
    }
  }

  /** A key that is not the first has fewer behind it than all but one. */
  lemma LaterThanFirst<K>(s: seq<K>, k: K)
    requires Unique(s) && k in s
    ensures s[0] == k ==> Later(s, k) == s[1..]
    ensures s[0] != k ==> |Later(s, k)| < |s| - 1 && s[0] !in Later(s, k)
  {
    if s[0] != k {
      assert Unique(s[1..]) && k in s[1..];
      LaterMembers(s[1..], k);
      assert s[0] !in s[1..];
    }
  }

  /** Removing the first of a list of distinct keys leaves the others in place. */
  lemma {:induction false} KeepTail<K>(s: seq<K>, live: set<K>)
    requires Unique(s) && s != []
    requires forall x :: x in s ==> (x in live <==> x != s[0])
    ensures Keep(s, live) == s[1..]
  {
    assert s[0] in s;
    assert forall x :: x in s[1..] ==> x in s && x != s[0];
    KeepAll(s[1..], live);
  }

  lemma {:induction false} LaterMembers<K>(s: seq<K>, k: K)
    requires Unique(s)
    ensures forall x :: x in Later(s, k) ==> x in s && x != k
    ensures Unique(Later(s, k))
    ensures |Later(s, k)| <= |s|
    ensures k in s ==> |Later(s, k)| < |s|
  {
    if s != [] {
      assert forall x :: x in s[1..] ==> x in s && x != s[0];
      if s[0] != k {
        LaterMembers(s[1..], k);
      }
    }
  }

  lemma {:induction false} LaterAppend<K>(s: seq<K>, t: seq<K>, k: K)
    requires k in s
    ensures Later(s + t, k) == Later(s, k) + t
  {
    assert (s + t)[0] == s[0];
    assert (s + t)[1..] == s[1..] + t;
    if s[0] != k {
      assert k in s[1..];
      LaterAppend(s[1..], t, k);
    }
  }

  lemma {:induction false} LaterEnd<K>(s: seq<K>, k: K)
    requires k !in s
    ensures Later(s + [k], k) == []
  {
    if s == [] {
      assert s + [k] == [k];
    } else {
      assert (s + [k])[1..] == s[1..] + [k];
      LaterEnd(s[1..], k);
    }
  }

  /** Deleting other keys deletes them from what follows `k` and nothing else. */
  lemma {:induction false} LaterKeep<K>(s: seq<K>, live: set<K>, k: K)
    requires k in s && k in live
    ensures Later(Keep(s, live), k) == Keep(Later(s, k), live)
  {
    if s[0] != k {
      assert k in s[1..];
      LaterKeep(s[1..], live, k);
    }
    if s[0] in live {
      assert Keep(s, live)[1..] == Keep(s[1..], live);
    } else {
      assert Keep(s, live) == Keep(s[1..], live);
    }
  }

  lemma SetValid<K, V>(m: JsMap<K, V>, k: K, v: V)
    requires m.Valid()
    ensures m.Set(k, v).Valid()
  {
  }

  lemma RestrictValid<K, V>(m: JsMap<K, V>, live: set<K>)
    requires m.Valid()
    ensures m.Restrict(live).Valid()
    ensures |m.Restrict(live).order| <= |m.order|
    ensures m.Restrict(live).table.Keys == m.table.Keys * live
    ensures forall k :: k in m.table && k in live ==> m.Restrict(live).table[k] == m.table[k]
  {
    var r := m.Restrict(live);
    KeepUnique(m.order, live);
    KeepMembers(m.order, live);
    assert r.table.Keys == m.table.Keys * live;
    forall k | k in r.order ensures k in r.table {
      assert k in Keep(m.order, live);
    }
    forall k | k in r.table ensures k in r.order {
      assert k in m.order && k in live;
    }
  }

  /** Deleting one key: its order and its table, stated without `Keep`. */
  lemma DeleteValid<K, V>(m: JsMap<K, V>, k: K)
    requires m.Valid()
    ensures m.Delete(k).Valid()
    ensures m.Delete(k).table == m.table - {k}
    ensures k !in m.table ==> m.Delete(k) == m
    ensures |m.Delete(k).order| == |m.order| - if k in m.table then 1 else 0
  {
    hide Keep;
    var live := m.table.Keys - {k};
    RestrictValid(m, live);
    assert m.Delete(k).table == m.table - {k};
    if k !in m.table {
      KeepAll(m.order, live);
      assert m.table - {k} == m.table;
    } else {
      KeepOne(m.order, k, live);
    }
  }

  lemma DeleteFirst<K, V>(m: JsMap<K, V>)
    requires m.Valid() && m.order != []
    ensures m.Delete(m.order[0]).order == m.order[1..]
  {
    KeepTail(m.order, m.table.Keys - {m.order[0]});
  }

  /** Restricting twice is restricting to the intersection; only keys of the map matter. */
  lemma RestrictTwice<K, V>(m: JsMap<K, V>, a: set<K>, b: set<K>, ab: set<K>)
    requires m.Valid()
    requires forall k :: k in m.table ==> (k in ab <==> k in a && k in b)
    ensures m.Restrict(a).Restrict(b) == m.Restrict(ab)
  {
    RestrictValid(m, a);
    RestrictValid(m, ab);
    RestrictValid(m.Restrict(a), b);
    KeepTwice(m.order, a, b);
    KeepSame(m.order, a * b, ab);
    assert m.Restrict(a).Restrict(b).table == m.Restrict(ab).table;
  }

  lemma RestrictAll<K, V>(m: JsMap<K, V>, live: set<K>)
    requires m.Valid()
    requires m.table.Keys <= live
    ensures m.Restrict(live) == m
  {
    KeepAll(m.order, live);
    assert m.Restrict(live).table == m.table;
  }

  /** One step of deleting keys while walking the map. */
  lemma RestrictDelete<K, V>(m: JsMap<K, V>, kept: set<K>, k: K)
    requires m.Valid()
    ensures m.Restrict(kept).Delete(k) == m.Restrict(kept - {k})
  {
    RestrictValid(m, kept);
    RestrictTwice(m, kept, m.Restrict(kept).table.Keys - {k}, kept - {k});
  }

  lemma {:induction false} KeepOne<K>(s: seq<K>, k: K, live: set<K>)
    requires Unique(s) && k in s
    requires forall x :: x in s ==> (x in live <==> x != k)
    ensures |Keep(s, live)| == |s| - 1
  {
    assert forall x :: x in s[1..] ==> x in s;
    assert s[0] in s;
    if s[0] == k {
      KeepTail(s, live);
    } else {
      assert k in s[1..];
      KeepOne(s[1..], k, live);
    }
  }

  /** A walk over the map that deletes what is not in `live`, after `n` keys: `kept` is what is left. */
  ghost predicate WalkedTo<K, V>(m: JsMap<K, V>, live: set<K>, kept: set<K>, n: nat) {
    && m.Valid() && n <= |m.order| && kept <= m.table.Keys
    && (forall i :: 0 <= i < n ==> (m.order[i] in kept <==> m.order[i] in live))
    && (forall i :: n <= i < |m.order| ==> m.order[i] in kept)
  }

  lemma WalkStart<K, V>(m: JsMap<K, V>, live: set<K>)
    requires m.Valid()
    ensures WalkedTo(m, live, m.table.Keys, 0) && m.Restrict(m.table.Keys) == m
  {
    RestrictAll(m, m.table.Keys);
  }

  lemma WalkStep<K, V>(m: JsMap<K, V>, live: set<K>, kept: set<K>, n: nat)
    requires WalkedTo(m, live, kept, n) && n < |m.order|
    ensures var k := m.order[n];
      && k in m.table && k in m.Restrict(kept).table
      && m.Restrict(kept).table[k] == m.table[k]
      && m.Restrict(kept).Delete(k) == m.Restrict(kept - {k})
      && WalkedTo(m, live, if k in live then kept else kept - {k}, n + 1)
  {
    RestrictValid(m, kept);
    RestrictDelete(m, kept, m.order[n]);
  }

  lemma WalkDone<K, V>(m: JsMap<K, V>, live: set<K>, kept: set<K>)
    requires WalkedTo(m, live, kept, |m.order|)
    ensures m.Restrict(kept) == m.Restrict(live) && m.Restrict(live).Valid()
  {
    RestrictValid(m, kept);
    forall k | k in m.table ensures k in kept <==> k in live {
      assert k in m.order;
    }
    KeepSame(m.order, kept, live);
    RestrictValid(m, live);
    assert m.Restrict(kept).table == m.Restrict(live).table;
  }
}
