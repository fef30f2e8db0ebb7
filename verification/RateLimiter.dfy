/** The rate limiter as an object: its map of limiters, eviction, the cleanup loop and the middleware. */
module RateLimiter {
  import opened Common
  import opened TokenBucket
  import opened LimiterMap

  class Limiter {
    const lim: Limits
    var bucket: Bucket

    constructor (lim: Limits, now: real)
      ensures this.lim == lim && bucket == Full(lim, now)
    {
      this.lim := lim;
      bucket := Full(lim, now);
    }

    method Allow(now: real) returns (ok: bool)
      modifies this
      ensures ok == Allows(old(bucket), lim, now)
      ensures bucket == Take(old(bucket), lim, now)
    {
      ok := Allows(bucket, lim, now);
      bucket := Take(bucket, lim, now);
    }
  }

  datatype LimiterEntry = LimiterEntry(limiter: Limiter, lastSeen: real)

  class RateLimiter {
    var limiters: map<string, LimiterEntry>
    const lim: Limits

    constructor (lim: Limits)
      ensures Valid() && this.lim == lim && limiters == map[]
    {
      this.lim := lim;
      limiters := map[];
    }

    function Limiters(): set<Limiter>
      reads this
    {
      set k | k in limiters :: limiters[k].limiter
    }

    /** No two keys share a limiter. */
    ghost predicate Valid()
      reads this
    {
      && (forall k, j :: k in limiters && j in limiters && k != j ==> limiters[k].limiter != limiters[j].limiter)
      && (forall k :: k in limiters ==> limiters[k].limiter.lim == lim)
    }

    /** The map as a value: each key with its bucket and when it was last seen. */
    ghost function Entries(): map<string, Entry>
      reads this, Limiters()
    {
      map k | k in limiters :: Entry(limiters[k].limiter.bucket, limiters[k].lastSeen)
    }

    /** Deletes the entries not seen for longer than `idle`. */
    method DropIdleEntries(now: real, idle: real)
      requires Valid()
      modifies this
      ensures Valid()
      ensures Entries() == DropIdle(old(Entries()), now, idle)
      ensures Limiters() <= old(Limiters())
    {
      ghost var before := limiters;
      var rest := limiters.Keys;
      while rest != {}
        invariant rest <= limiters.Keys <= before.Keys
        invariant forall k :: k in limiters ==> limiters[k] == before[k]
        invariant forall k :: k in before && k !in rest ==> (k in limiters <==> !(now - before[k].lastSeen > idle))
        decreases rest
      {
        var k :| k in rest;
        rest := rest - {k};
        if now - limiters[k].lastSeen > idle {
          limiters := limiters - {k};
        }
      }
    }

    /** Scans for the oldest entry in the map's own iteration order, which it reports. */
    method FindOldest() returns (oldestKey: string, ghost order: seq<string>)
      ensures IsOrderOf(Entries(), order)
      ensures oldestKey == Scan(SeenOf(Entries()), order).0
    {
      oldestKey := "";
      var oldestTime := 0.0;
      order := [];
      var rest := limiters.Keys;
      ghost var seen := SeenOf(Entries());
      while rest != {}
        invariant rest <= limiters.Keys
        invariant Distinct(order) && forall k :: k in order <==> k in limiters.Keys - rest
        invariant (oldestKey, oldestTime) == Scan(seen, order)
        decreases rest
      {
        var k :| k in rest;
        assert k !in order;
        rest := rest - {k};
        if oldestKey == "" || limiters[k].lastSeen < oldestTime {
          oldestKey, oldestTime := k, limiters[k].lastSeen;
        }
        assert (order + [k])[..|order|] == order;
        order := order + [k];
      }
    }

    lemma EntriesSize()
      ensures |Entries()| == |limiters|
    {
      assert Entries().Keys == limiters.Keys;
      assert |Entries().Keys| == |limiters.Keys|;
    }

    /** Evicts the oldest entry, if the scan finds one. */
    method DropOldest() returns (ghost order: seq<string>)
      requires Valid()
      modifies this
      ensures Valid() && Limiters() <= old(Limiters())
      ensures IsOrderOf(old(Entries()), order)
      ensures var oldest := Scan(SeenOf(old(Entries())), order).0;
        Entries() == if oldest == "" then old(Entries()) else old(Entries()) - {oldest}
    {
      var oldestKey, scanned := FindOldest();
      order := scanned;
      if oldestKey != "" {
        limiters := limiters - {oldestKey};
      }
    }

    /** Makes room for one more entry when the map is at its cap. */
    method Evict(now: real) returns (ghost order: seq<string>)
      requires Valid()
      modifies this
      ensures Valid() && Limiters() <= old(Limiters())
      ensures IsOrderOf(DropIdle(old(Entries()), now, STALE_AFTER), order)
      ensures Entries() == MakeRoom(old(Entries()), now, order)
    {
      order := AnyOrder(DropIdle(Entries(), now, STALE_AFTER).Keys);
      EntriesSize();
      if |limiters| >= MAX_LIMITER_ENTRIES {
        DropIdleEntries(now, STALE_AFTER);
        EntriesSize();
        if |limiters| >= MAX_LIMITER_ENTRIES {
          order := DropOldest();
        }
      }
    }

    /** Finds the key's limiter, or makes room for a new one. */
    method GetLimiter(key: string, now: real) returns (limiter: Limiter, ghost order: seq<string>)
      requires Valid()
      modifies this
      ensures Valid()
      ensures key in limiters && limiters[key].limiter == limiter
      ensures limiter in old(Limiters()) || fresh(limiter)
      ensures IsOrderOf(DropIdle(old(Entries()), now, STALE_AFTER), order)
      ensures Entries() == Touched(old(Entries()), key, now, lim, order)
    {
      if key in limiters {
        order := AnyOrder(DropIdle(Entries(), now, STALE_AFTER).Keys);
        limiter := limiters[key].limiter;
        limiters := limiters[key := LimiterEntry(limiter, now)];
        return;
      }
      order := Evict(now);
      limiter := Insert(key, now);
    }

    /** Adds an entry with a new, full bucket. */
    method Insert(key: string, now: real) returns (limiter: Limiter)
      requires Valid()
      modifies this
      ensures Valid() && fresh(limiter)
      ensures key in limiters && limiters[key].limiter == limiter
      ensures Entries() == old(Entries())[key := Entry(Full(lim, now), now)]
    {
      limiter := new Limiter(lim, now);
      limiters := limiters[key := LimiterEntry(limiter, now)];
    }

    /** One turn of the background loop. */
    method CleanupTick(now: real)
      requires Valid()
      modifies this
      ensures Valid()
      ensures Entries() == Capped(old(Entries()), Cleanup(now), lim).0
      ensures forall k :: k in Entries() <==> k in old(Entries()) && now - old(Entries())[k].lastSeen <= 600.0
      ensures forall k :: k in Entries() ==> Entries()[k] == old(Entries())[k]
    {
      DropIdleEntries(now, CLEANUP_AFTER);
    }

    /** The middleware: the decision and the map are those of the capped map's request step. The
        bucket is asked after the lookup, by a clock reading of its own. */
    method Handle(key: string, now: real, asked: real) returns (allowed: bool, ghost order: seq<string>)
      requires Valid()
      modifies this, Limiters()
      ensures Valid()
      ensures EventOk(old(Entries()), Request(key, now, asked, order))
      ensures Capped(old(Entries()), Request(key, now, asked, order), lim) == (Entries(), Some(allowed))
      ensures
        var bucket := if key in old(Entries()) then old(Entries())[key].bucket else Bucket(lim.burst as real, now);
        && (allowed <==> Level(bucket, lim, asked) >= 1.0)
        && key in Entries() && Entries()[key].lastSeen == now
        && Entries()[key].bucket == if allowed then Bucket(Level(bucket, lim, asked) - 1.0, asked) else bucket
    {
      var limiter: Limiter;
      limiter, order := GetLimiter(key, now);
      allowed := Ask(key, limiter, asked);
    }

    method Ask(key: string, limiter: Limiter, asked: real) returns (allowed: bool)
      requires Valid() && key in limiters && limiters[key].limiter == limiter
      modifies limiter
      ensures Valid()
      ensures allowed == Allows(old(Entries())[key].bucket, lim, asked)
      ensures Entries() == AllowIn(old(Entries()), key, asked, lim)
    {
      allowed := limiter.Allow(asked);
    }
  }
}
