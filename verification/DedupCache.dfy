/** The Telegram dedup cache as the gateway runs it: a mutable object, and the loops of its methods. */
module DedupCache {
  import opened Options
  import opened JsMaps
  import opened DedupSpec
  import opened DedupRotation
  import Eviction

  class DedupCache {
    const ttlMs: int
    const maxSize: int
    var entries: JsMap<int, Entry>
    var highWaterMark: Option<int>
    var generation: int

    /** The object's state as a value. */
    function Model(): Cache
      reads this
    {
      Cache(ttlMs, maxSize, entries, highWaterMark, generation)
    }

    ghost predicate Valid()
      reads this
    {
      Model().Valid()
    }

    constructor (ttlMs: int, maxSize: int)
      ensures Valid() && Model() == New(ttlMs, maxSize)
    {
      this.ttlMs := ttlMs;
      this.maxSize := maxSize;
      entries := Empty();
      highWaterMark := None;
      generation := 0;
    }

    method Get(updateId: int, now: int) returns (response: Option<Response>)
      requires Valid()
      modifies this
      ensures Valid() && Model() == Step(old(Model()), Call(now, GetOp(updateId)))
      ensures response == Lookup(old(Model()), updateId, now)
    {
      DeleteValid(entries, updateId);
      if updateId !in entries.table {
        return None;
      }
      var entry := entries.table[updateId];
      if now > entry.expiresAt {
        entries := entries.Delete(updateId);
        return None;
      }
      if entry.processing {
        return None;
      }
      return Some(Response(entry.body, entry.status));
    }

    method Reserve(updateId: int, now: int) returns (answer: Answer)
      requires Valid()
      modifies this
      ensures Valid() && Model() == Step(old(Model()), Call(now, ReserveOp(updateId)))
      ensures answer == ReserveAnswer(old(Model()), updateId, now)
    {
      hide Eviction.Roomy, JsMap.Delete, JsMap.Set;
      if updateId in entries.table {
        if now <= entries.table[updateId].expiresAt {
          return Duplicate;
        }
        DeleteValid(entries, updateId);
        entries := entries.Delete(updateId);
      }
      if highWaterMark.Some? && updateId <= highWaterMark.value {
        return AlreadyProcessed;
      }
      ClearSpace(now);
      SetValid(entries, updateId, Entry("", 0, now + ttlMs, true, generation));
      entries := entries.Set(updateId, Entry("", 0, now + ttlMs, true, generation));
      return Reserved;
    }

    method Unreserve(updateId: int, reservedIn: int)
      requires Valid()
      modifies this
      ensures Valid() && forall now :: Model() == Step(old(Model()), Call(now, UnreserveOp(updateId, reservedIn)))
    {
      if reservedIn != generation {
        return;
      }
      if updateId in entries.table && entries.table[updateId].processing {
        DeleteValid(entries, updateId);
        entries := entries.Delete(updateId);
      }
    }

    /** `set` in the source: store the response and advance the high-water mark. */
    method Finalize(updateId: int, response: Response, reservedIn: int, now: int)
      requires Valid()
      modifies this
      ensures Valid() && Model() == Step(old(Model()), Call(now, FinalizeOp(updateId, response, reservedIn)))
    {
      hide Eviction.Roomy, JsMap.Set;
      if reservedIn != generation {
        return;
      }
      if highWaterMark.None? || updateId > highWaterMark.value {
        highWaterMark := Some(updateId);
      }
      ghost var raised := Model();
      assert raised == old(Model()).(mark := Raise(old(Model()).mark, updateId));
      ClearSpace(now);
      assert Model() == MakeRoom(raised, now);
      SetValid(entries, updateId, Entry(response.body, response.status, now + ttlMs, false, generation));
      entries := entries.Set(updateId, Entry(response.body, response.status, now + ttlMs, false, generation));
    }

    method Reset()
      requires Valid()
      modifies this
      ensures Valid() && forall now :: Model() == Step(old(Model()), Call(now, ResetOp))
    {
      entries := Empty();
      highWaterMark := None;
      generation := generation + 1;
    }

    method EvictExpired(now: int)
      requires Valid()
      modifies this`entries
      ensures Valid() && Model() == Step(old(Model()), Call(now, SweepOp))
    {
      var keys := entries.order;
      ghost var was := entries;
      ghost var live := Eviction.LiveIn(was, LivesAt(now));
      ghost var kept := was.table.Keys;
      WalkStart(was, live);
      for n := 0 to |keys|
        invariant entries == was.Restrict(kept) && WalkedTo(was, live, kept, n)
      {
        WalkStep(was, live, kept, n);
        if now > entries.table[keys[n]].expiresAt {
          entries := entries.Delete(keys[n]);
          kept := kept - {keys[n]};
        }
      }
      WalkDone(was, live, kept);
    }

    /** The eviction that `reserve` and `set` share: sweep at capacity, then drop the oldest. */
    method ClearSpace(now: int)
      requires Valid()
      modifies this`entries
      ensures Valid() && Model() == MakeRoom(old(Model()), now)
    {
      if |entries.order| >= maxSize {
        EvictExpired(now);
      }
      if |entries.order| >= maxSize {
        if entries.order != [] {
          DeleteValid(entries, entries.order[0]);
          entries := entries.Delete(entries.order[0]);
        }
      }
    }
  }

  /** The part of the gateway's credential-change callback that guards the cache. */
  class TokenGuard {
    const hash: string -> string
    const cache: DedupCache
    var lastFingerprint: Option<string>

    constructor (hash: string -> string, cache: DedupCache)
      ensures this.hash == hash && this.cache == cache && lastFingerprint == None
    {
      this.hash := hash;
      this.cache := cache;
      lastFingerprint := None;
    }

    function Model(): Driver
      reads this, cache
    {
      Driver(lastFingerprint, cache.Model())
    }

    method OnCredentialChange(token: string)
      requires cache.Valid()
      modifies this, cache
      ensures cache.Valid()
      ensures forall now :: Model() == DriverStep(hash, old(Model()), Credentials(now, token))
    {
      var fingerprint := if token != "" then Some(hash(token)) else None;
      if fingerprint != lastFingerprint {
        lastFingerprint := fingerprint;
        cache.Reset();
        assert cache.Model() == Step(old(cache.Model()), Call(0, ResetOp));
      }
    }
  }
}
