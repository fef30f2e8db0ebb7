/** The capped map of token buckets, and the unbounded map it stands for. */
module LimiterMap {
  import opened Common
  import opened TokenBucket

  const MAX_LIMITER_ENTRIES: nat := 10000
  const STALE_AFTER := 300.0     // eviction on insertion, five minutes
  const CLEANUP_AFTER := 600.0   // the background loop, ten minutes

  datatype Entry = Entry(bucket: Bucket, lastSeen: real)

  // ----- eviction -----

  function DropIdle(m: map<string, Entry>, now: real, idle: real): map<string, Entry> {
    map k | k in m && !(now - m[k].lastSeen > idle) :: m[k]
  }

  /** The scan for the oldest entry, in iteration order: the empty key doubles as "none yet". */
  function Scan(seen: map<string, real>, order: seq<string>): (string, real)
    requires forall k :: k in order ==> k in seen
  {
    if order == [] then ("", 0.0)
    else
      var best := Scan(seen, order[..|order| - 1]);
      var k := order[|order| - 1];
      if best.0 == "" || seen[k] < best.1 then (k, seen[k]) else best
  }

  predicate IsOldest(seen: map<string, real>, order: seq<string>, key: string)
    requires forall k :: k in order ==> k in seen
  {
    key in order && forall k :: k in order ==> seen[key] <= seen[k]
  }

  /** The empty key stands for an entry that is strictly older than all others. */
  predicate EmptyKeyIsOldest(seen: map<string, real>, order: seq<string>)
    requires forall k :: k in order ==> k in seen
  {
    "" in order && forall k :: k in order && k != "" ==> seen[""] < seen[k]
  }

  lemma {:induction false} ScanStaysInOrder(seen: map<string, real>, order: seq<string>)
    requires (forall k :: k in order ==> k in seen) && order != []
    ensures var best := Scan(seen, order); best.0 in order && best.1 == seen[best.0]
  {
    var front := order[..|order| - 1];
    if front != [] {
      ScanStaysInOrder(seen, front);
    }
  }

  /** The scan comes back with a least recently seen entry exactly when the empty key is not there
      or not strictly older than all others, whatever the iteration order. */
  lemma {:induction false} ScanFindsOldestIff(seen: map<string, real>, order: seq<string>)
    requires (forall k :: k in order ==> k in seen) && Distinct(order) && order != []
    ensures var best := Scan(seen, order).0;
      best != "" && IsOldest(seen, order, best) <==> !EmptyKeyIsOldest(seen, order)
  {
    var front, last := order[..|order| - 1], order[|order| - 1];
    assert forall k :: k in order <==> k in front || k == last;
    assert last !in front;
    ScanStaysInOrder(seen, order);
    if front != [] {
      ScanStaysInOrder(seen, front);
      ScanFindsOldestIff(seen, front);
    }
  }

  /** The scan comes back with nobody exactly when the empty key is visited last and stands for an
      entry strictly older than all others. */
  lemma ScanFindsNoneIff(seen: map<string, real>, order: seq<string>)
    requires (forall k :: k in order ==> k in seen) && Distinct(order) && order != []
    ensures Scan(seen, order).0 == "" <==> order[|order| - 1] == "" && EmptyKeyIsOldest(seen, order)
  {
    var front, last := order[..|order| - 1], order[|order| - 1];
    assert forall k :: k in order <==> k in front || k == last;
    assert last !in front;
    if front != [] {
      ScanStaysInOrder(seen, front);
      ScanFindsOldestIff(seen, front);
    }
  }

  function SeenOf(m: map<string, Entry>): map<string, real> {
    map k | k in m :: m[k].lastSeen
  }

  ghost predicate IsOrderOf(m: map<string, Entry>, order: seq<string>) {
    Distinct(order) && forall k :: k in order <==> k in m
  }

  ghost function AnyOrder(s: set<string>): (order: seq<string>)
    ensures Distinct(order) && forall k :: k in order <==> k in s
  {
    if s == {} then []
    else
      var k :| k in s;
      AnyOrder(s - {k}) + [k]
  }

  function MakeRoom(m: map<string, Entry>, now: real, order: seq<string>): map<string, Entry>
    requires forall k :: k in order ==> k in DropIdle(m, now, STALE_AFTER)
  {
    if |m| < MAX_LIMITER_ENTRIES then m
    else
      var kept := DropIdle(m, now, STALE_AFTER);
      if |kept| < MAX_LIMITER_ENTRIES then kept
      else
        var oldest := Scan(SeenOf(kept), order).0;
        if oldest == "" then kept else kept - {oldest}
  }

  /** What getLimiter does to the map for a key at a time. */
  function Touched(m: map<string, Entry>, key: string, now: real, lim: Limits, order: seq<string>): map<string, Entry>
    requires forall k :: k in order ==> k in DropIdle(m, now, STALE_AFTER)
  {
    if key in m then m[key := m[key].(lastSeen := now)]
    else MakeRoom(m, now, order)[key := Entry(Full(lim, now), now)]
  }

  lemma DropIdleSize(m: map<string, Entry>, now: real, idle: real)
    ensures |DropIdle(m, now, idle)| <= |m|
  {
    assert DropIdle(m, now, idle).Keys <= m.Keys;
    SubsetSize(DropIdle(m, now, idle).Keys, m.Keys);
  }

  lemma InsertSize(m: map<string, Entry>, key: string, e: Entry)
    ensures |m[key := e]| == |m| + (if key in m then 0 else 1)
  {
    assert m[key := e].Keys == m.Keys + {key};
    assert |m[key := e].Keys| == |m.Keys + {key}|;
  }

  /** The map is full of fresh entries and the one of the empty key is strictly the oldest. */
  predicate IsBlocked(m: map<string, Entry>, now: real) {
    && |m| == MAX_LIMITER_ENTRIES
    && (forall k :: k in m ==> now - m[k].lastSeen <= STALE_AFTER)
    && "" in m && forall k :: k in m && k != "" ==> m[""].lastSeen < m[k].lastSeen
  }

  lemma FreshMapIsKept(m: map<string, Entry>, now: real)
    ensures DropIdle(m, now, STALE_AFTER) == m <==> forall k :: k in m ==> now - m[k].lastSeen <= STALE_AFTER
    ensures |DropIdle(m, now, STALE_AFTER)| <= |m|
    ensures |DropIdle(m, now, STALE_AFTER)| == |m| <==> DropIdle(m, now, STALE_AFTER) == m
  {
    var kept := DropIdle(m, now, STALE_AFTER);
    DropIdleSize(m, now, STALE_AFTER);
    if |kept| == |m| {
      assert |kept.Keys| == |m.Keys|;
      SubsetSize(kept.Keys, m.Keys);
    }
    if kept == m {
      forall k | k in m ensures now - m[k].lastSeen <= STALE_AFTER {
        assert k in kept;
      }
    }
  }

  /** Eviction leaves no room exactly when the map is full of fresh entries and the scan comes back
      with nobody; otherwise it drops stale entries and at most one other, the one the scan found. */
  lemma RoomIsMade(m: map<string, Entry>, now: real, order: seq<string>)
    requires |m| <= MAX_LIMITER_ENTRIES && IsOrderOf(DropIdle(m, now, STALE_AFTER), order)
    ensures var m', kept := MakeRoom(m, now, order), DropIdle(m, now, STALE_AFTER);
      && (|m'| < MAX_LIMITER_ENTRIES <==> !(IsBlocked(m, now) && order != [] && order[|order| - 1] == ""))
      && (m' == m || m' == kept || (kept == m && order != [] && m' == m - {Scan(SeenOf(m), order).0}))
  {
    var kept := DropIdle(m, now, STALE_AFTER);
    FreshMapIsKept(m, now);
    if |kept| >= MAX_LIMITER_ENTRIES {
      assert kept == m && |m| == MAX_LIMITER_ENTRIES;
      ScanRemovesOne(m, order);
    } else if |m| == MAX_LIMITER_ENTRIES {
      assert kept != m && !IsBlocked(m, now);
    }
  }

  lemma ScanRemovesOne(m: map<string, Entry>, order: seq<string>)
    requires IsOrderOf(m, order) && |m| > 0
    ensures var oldest := Scan(SeenOf(m), order).0;
      && order != []
      && (oldest == "" <==> order[|order| - 1] == "" && EmptyKeyIsOldest(SeenOf(m), order))
      && |m - {oldest}| == |m| - 1
    ensures EmptyKeyIsOldest(SeenOf(m), order)
       <==> "" in m && forall k :: k in m && k != "" ==> m[""].lastSeen < m[k].lastSeen
  {
    OrderOfMap(m, order);
    ScanFindsNoneIff(SeenOf(m), order);
    ScanStaysInOrder(SeenOf(m), order);
    var oldest := Scan(SeenOf(m), order).0;
    assert (m - {oldest}).Keys == m.Keys - {oldest};
    assert |(m - {oldest}).Keys| == |m.Keys| - 1;
  }

  lemma OrderOfMap(m: map<string, Entry>, order: seq<string>)
    requires IsOrderOf(m, order) && |m| > 0
    ensures order != []
    ensures EmptyKeyIsOldest(SeenOf(m), order)
       <==> "" in m && forall k :: k in m && k != "" ==> m[""].lastSeen < m[k].lastSeen
  {
    var x :| x in m;
    assert x in order;
  }

  /** The cap is kept exactly when it is not this case: a new key arrives while the map is full of
      fresh entries, the empty key's is strictly the oldest, and the iteration visits it last. */
  lemma CapHoldsIff(m: map<string, Entry>, key: string, now: real, lim: Limits, order: seq<string>)
    requires |m| <= MAX_LIMITER_ENTRIES && IsOrderOf(DropIdle(m, now, STALE_AFTER), order)
    ensures |Touched(m, key, now, lim, order)| <= MAX_LIMITER_ENTRIES
       <==> !(key !in m && IsBlocked(m, now) && order != [] && order[|order| - 1] == "")
  {
    if key in m {
      InsertSize(m, key, m[key].(lastSeen := now));
    } else {
      RoomIsMade(m, now, order);
      InsertSize(MakeRoom(m, now, order), key, Entry(Full(lim, now), now));
    }
  }

  /** The requested key is present and just seen, kept entries are unchanged, and whoever had to go
      was idle beyond the limit or, at most one, another that the scan found. */
  lemma TouchedEffect(m: map<string, Entry>, key: string, now: real, lim: Limits, order: seq<string>)
    requires |m| <= MAX_LIMITER_ENTRIES && IsOrderOf(DropIdle(m, now, STALE_AFTER), order)
    ensures var m' := Touched(m, key, now, lim, order);
      && key in m' && m'[key].lastSeen == now
      && (key in m ==> m' == m[key := m[key].(lastSeen := now)])
      && (forall k :: k in m && k != key && k in m' ==> m'[k] == m[k])
      && (forall k :: k in m && k !in m' && now - m[k].lastSeen <= STALE_AFTER ==>
            DropIdle(m, now, STALE_AFTER) == m && order != [] && k == Scan(SeenOf(m), order).0)
  {
    if key !in m {
      RoomIsMade(m, now, order);
    }
  }

  /** Somebody goes only when a new key meets a full map; then every entry idle for more than five
      minutes goes, and somebody else only if there is none. A known key keeps its bucket, a new one
      gets a full one. */
  lemma EvictsOnlyWhenFull(m: map<string, Entry>, key: string, now: real, lim: Limits, order: seq<string>)
    requires |m| <= MAX_LIMITER_ENTRIES && IsOrderOf(DropIdle(m, now, STALE_AFTER), order)
    ensures var m' := Touched(m, key, now, lim, order);
      && (key in m ==> m' == m[key := m[key].(lastSeen := now)])
      && (key !in m ==> key in m' && m'[key] == Entry(Bucket(lim.burst as real, now), now))
      && (forall k :: k in m' && k != key ==> k in m && m'[k] == m[k])
      && (key !in m && |m| < 10000 ==> forall k :: k in m ==> k in m')
      && (key !in m && |m| == 10000 ==> forall k :: k in m && now - m[k].lastSeen > 300.0 ==> k !in m')
      && (forall j, k | j in m && now - m[j].lastSeen > 300.0 && k in m && now - m[k].lastSeen <= 300.0 :: k in m')
  {
    if key !in m {
      RoomIsMade(m, now, order);
      FreshMapIsKept(m, now);
    }
  }

  /** When an entry that is not stale has to go, it is a least recently seen one exactly when the
      empty key's is not strictly the oldest. */
  lemma EvictedIsOldestIff(m: map<string, Entry>, key: string, now: real, lim: Limits, order: seq<string>, k: string)
    requires |m| <= MAX_LIMITER_ENTRIES && IsOrderOf(DropIdle(m, now, STALE_AFTER), order)
    requires k in m && k !in Touched(m, key, now, lim, order) && now - m[k].lastSeen <= STALE_AFTER
    ensures (forall j :: j in m ==> m[k].lastSeen <= m[j].lastSeen)
       <==> !("" in m && forall j :: j in m && j != "" ==> m[""].lastSeen < m[j].lastSeen)
  {
    TouchedEffect(m, key, now, lim, order);
    OrderOfMap(m, order);
    ScanFindsOldestIff(SeenOf(m), order);
    ScanFindsNoneIff(SeenOf(m), order);
    assert (forall j :: j in m ==> m[k].lastSeen <= m[j].lastSeen) <==> IsOldest(SeenOf(m), order, k);
  }

  /** Without an empty key the map stays within its cap, the requested key is present afterwards,
      and every entry that had to go was idle beyond the limit or the least recently seen. */
  lemma CapAndEvictionOrder(m: map<string, Entry>, key: string, now: real, lim: Limits, order: seq<string>)
    requires |m| <= MAX_LIMITER_ENTRIES && "" !in m
    requires IsOrderOf(DropIdle(m, now, STALE_AFTER), order)
    ensures var m' := Touched(m, key, now, lim, order);
      && |m'| <= 10000
      && key in m' && m'[key].lastSeen == now
      && (forall k :: k in m && k != key && k in m' ==> m'[k] == m[k])
      && (forall k, j :: k in m && k !in m' && j in m ==>
            now - m[k].lastSeen > 300.0 || m[k].lastSeen <= m[j].lastSeen)
      && (forall k, j :: k in m && j in m && k !in m' && j !in m' && k != j ==>
            now - m[k].lastSeen > 300.0 || now - m[j].lastSeen > 300.0)
  {
    CapHoldsIff(m, key, now, lim, order);
    TouchedEffect(m, key, now, lim, order);
    forall k | k in m && k !in Touched(m, key, now, lim, order) && now - m[k].lastSeen <= STALE_AFTER
      ensures forall j :: j in m ==> m[k].lastSeen <= m[j].lastSeen
    {
      EvictedIsOldestIff(m, key, now, lim, order, k);
    }
  }

  // ----- timed runs -----

  /** A request looks its key up at one moment and asks the bucket at another, `asked`. */
  datatype Event = Request(key: string, now: real, asked: real, order: seq<string>) | Cleanup(now: real)

  function End(e: Event): real {
    if e.Request? then e.asked else e.now
  }

  function AllowIn(m: map<string, Entry>, key: string, now: real, lim: Limits): map<string, Entry>
    requires key in m
  {
    m[key := m[key].(bucket := Take(m[key].bucket, lim, now))]
  }

  ghost predicate EventOk(m: map<string, Entry>, e: Event) {
    e.Request? ==> IsOrderOf(DropIdle(m, e.now, STALE_AFTER), e.order)
  }

  /** The middleware on the capped map: find or create the bucket, then ask it. */
  ghost function Capped(m: map<string, Entry>, e: Event, lim: Limits): (map<string, Entry>, Option<bool>)
    requires EventOk(m, e)
  {
    match e
    case Cleanup(now) => (DropIdle(m, now, CLEANUP_AFTER), None)
    case Request(key, now, asked, order) =>
      var m' := Touched(m, key, now, lim, order);
      (AllowIn(m', key, asked, lim), Some(Allows(m'[key].bucket, lim, asked)))
  }

  ghost predicate IsEventRun(m: map<string, Entry>, events: seq<Event>, lim: Limits)
    decreases |events|
  {
    events != [] ==> EventOk(m, events[0]) && IsEventRun(Capped(m, events[0], lim).0, events[1..], lim)
  }

  ghost function MapAfter(m: map<string, Entry>, events: seq<Event>, lim: Limits): map<string, Entry>
    requires IsEventRun(m, events, lim)
    decreases |events|
  {
    if events == [] then m else MapAfter(Capped(m, events[0], lim).0, events[1..], lim)
  }

  /** In every run of requests with non-empty keys and of cleanups, whatever the clock readings and
      iteration orders, the map stays within its cap. */
  lemma {:induction false} CapHoldsInEveryRun(m: map<string, Entry>, events: seq<Event>, lim: Limits)
    requires |m| <= MAX_LIMITER_ENTRIES && "" !in m
    requires IsEventRun(m, events, lim) && forall e :: e in events && e.Request? ==> e.key != ""
    ensures |MapAfter(m, events, lim)| <= 10000
    decreases |events|
  {
    if events != [] {
      var e := events[0];
      var m' := Capped(m, e, lim).0;
      assert e in events && forall f :: f in events[1..] ==> f in events;
      if e.Request? {
        CapAndEvictionOrder(m, e.key, e.now, lim, e.order);
        AskedSize(m, e, lim);
      } else {
        DropIdleSize(m, e.now, CLEANUP_AFTER);
      }
      CapHoldsInEveryRun(m', events[1..], lim);
    }
  }

  /** After a cleanup, in any run, exactly the entries seen within the last ten minutes are left. */
  lemma CleanupKeepsTheRecent(m: map<string, Entry>, events: seq<Event>, now: real, lim: Limits)
    requires IsEventRun(m, events, lim)
    ensures IsEventRun(m, events + [Cleanup(now)], lim)
    ensures var before, after := MapAfter(m, events, lim), MapAfter(m, events + [Cleanup(now)], lim);
      && (forall k :: k in after <==> k in before && now - before[k].lastSeen <= 600.0)
      && (forall k :: k in after ==> after[k] == before[k])
  {
    EventRunAppend(m, events, Cleanup(now), lim);
  }

  /** No clock reading is before that of the last cleanup, which is `tick` at first. */
  ghost predicate FollowsTicks(events: seq<Event>, tick: real)
    decreases |events|
  {
    events != [] ==>
      tick <= events[0].now && FollowsTicks(events[1..], if events[0].Cleanup? then events[0].now else tick)
  }

  /** The time of the last cleanup. */
  function LastTick(events: seq<Event>, tick: real): real
    decreases |events|
  {
    if events == [] then tick else LastTick(events[1..], if events[0].Cleanup? then events[0].now else tick)
  }

  /** Nobody stays in memory unseen: whatever requests come, at any moment up to five minutes after
      a cleanup every entry has been seen within the last fifteen minutes. */
  lemma {:induction false} EntriesAreRecent(m: map<string, Entry>, events: seq<Event>, lim: Limits, tick: real,
      at: real)
    requires IsEventRun(m, events, lim) && FollowsTicks(events, tick)
    requires forall k :: k in m ==> tick - m[k].lastSeen <= 600.0
    requires at <= LastTick(events, tick) + 300.0
    ensures forall k :: k in MapAfter(m, events, lim) ==> at - MapAfter(m, events, lim)[k].lastSeen <= 900.0
    decreases |events|
  {
    if events != [] {
      var e := events[0];
      var m', tick' := Capped(m, e, lim).0, if e.Cleanup? then e.now else tick;
      forall k | k in m' ensures tick' - m'[k].lastSeen <= 600.0 {
        assert e.Request? && k != e.key ==> k in m && m'[k] == m[k];
      }
      EntriesAreRecent(m', events[1..], lim, tick', at);
    }
  }

  // ----- the cap can be passed -----

  /** The i-th of a family of different keys, the empty one first. */
  function Key(i: nat): string {
    seq(i, _ => 'k')
  }

  /** The first n keys, the empty one seen a second before the others. */
  ghost predicate IsFilled(m: map<string, Entry>, n: nat) {
    && |m| == n
    && (forall k :: k in m <==> |k| < n && k == Key(|k|))
    && (forall k :: k in m ==> m[k].lastSeen == if k == "" then 0.0 else 1.0)
  }

  ghost predicate InTimeOrder(events: seq<Event>) {
    forall i, j :: 0 <= i < j < |events| ==> events[i].now <= events[j].now
  }

  lemma {:induction false} EventRunAppend(m: map<string, Entry>, events: seq<Event>, e: Event, lim: Limits)
    requires IsEventRun(m, events, lim) && EventOk(MapAfter(m, events, lim), e)
    ensures IsEventRun(m, events + [e], lim)
    ensures MapAfter(m, events + [e], lim) == Capped(MapAfter(m, events, lim), e, lim).0
    decreases |events|
  {
    if events == [] {
      assert events + [e] == [e] && (events + [e])[1..] == [];
    } else {
      assert (events + [e])[1..] == events[1..] + [e];
      EventRunAppend(Capped(m, events[0], lim).0, events[1..], e, lim);
    }
  }

  /** A request with the next key fills the map further. */
  lemma FillOne(m: map<string, Entry>, n: nat, lim: Limits) returns (e: Event)
    requires IsFilled(m, n) && n < MAX_LIMITER_ENTRIES
    ensures EventOk(m, e) && IsFilled(Capped(m, e, lim).0, n + 1) && e.now == if n == 0 then 0.0 else 1.0
  {
    var now := if n == 0 then 0.0 else 1.0;
    e := Request(Key(n), now, now, AnyOrder(DropIdle(m, now, STALE_AFTER).Keys));
    assert |Key(n)| == n;
    var entry := Entry(Full(lim, e.now), e.now);
    var m1 := m[e.key := entry];
    InsertSize(m, e.key, entry);
    InsertSize(m1, e.key, entry.(bucket := Take(entry.bucket, lim, e.asked)));
    forall k ensures k in m1 <==> |k| < n + 1 && k == Key(|k|) {
      assert |k| == n && k == Key(|k|) ==> k == Key(n);
    }
  }

  lemma {:induction false} FillRun(n: nat, lim: Limits) returns (events: seq<Event>)
    requires n <= MAX_LIMITER_ENTRIES
    ensures IsEventRun(map[], events, lim) && IsFilled(MapAfter(map[], events, lim), n)
    ensures |events| == n && InTimeOrder(events) && forall e :: e in events ==> e.now <= 1.0
  {
    if n == 0 {
      events := [];
    } else {
      var first := FillRun(n - 1, lim);
      var e := FillOne(MapAfter(map[], first, lim), n - 1, lim);
      EventRunAppend(map[], first, e, lim);
      TimeOrderAppend(first, e);
      events := first + [e];
    }
  }

  lemma TimeOrderAppend(events: seq<Event>, e: Event)
    requires InTimeOrder(events) && forall d :: d in events ==> d.now <= e.now
    ensures InTimeOrder(events + [e]) && forall d :: d in events + [e] ==> d.now <= e.now
  {
  }

  /** A run that passes the cap, whatever the limits: fill the map with fresh entries after the one
      of the empty key, then let a new key arrive while the iteration visits the empty key last. */
  lemma EmptyKeyDefeatsTheCap(lim: Limits) returns (events: seq<Event>)
    ensures IsEventRun(map[], events, lim) && InTimeOrder(events)
    ensures |MapAfter(map[], events, lim)| > 10000
  {
    var first := FillRun(MAX_LIMITER_ENTRIES, lim);
    var m := MapAfter(map[], first, lim);
    FilledIsBlocked(m);
    var e := Overflow(m, lim);
    EventRunAppend(map[], first, e, lim);
    TimeOrderAppend(first, e);
    events := first + [e];
  }

  lemma FilledIsBlocked(m: map<string, Entry>)
    requires IsFilled(m, MAX_LIMITER_ENTRIES)
    ensures IsBlocked(m, 1.0) && Key(MAX_LIMITER_ENTRIES) !in m
  {
    assert Key(0) == "" && |Key(MAX_LIMITER_ENTRIES)| == MAX_LIMITER_ENTRIES;
    assert |""| == 0;
  }

  lemma Overflow(m: map<string, Entry>, lim: Limits) returns (e: Event)
    requires IsBlocked(m, 1.0) && Key(MAX_LIMITER_ENTRIES) !in m
    ensures EventOk(m, e) && e.now == 1.0 && |Capped(m, e, lim).0| > MAX_LIMITER_ENTRIES
  {
    var key, order := Key(MAX_LIMITER_ENTRIES), AnyOrder(m.Keys - {""}) + [""];
    e := Request(key, 1.0, 1.0, order);
    FreshMapIsKept(m, 1.0);
    assert order[|order| - 1] == "";
    CapHoldsIff(m, key, 1.0, lim, order);
    AskedSize(m, e, lim);
  }

  lemma AskedSize(m: map<string, Entry>, e: Event, lim: Limits)
    requires e.Request? && EventOk(m, e)
    ensures |Capped(m, e, lim).0| == |Touched(m, e.key, e.now, lim, e.order)|
  {
    var m' := Touched(m, e.key, e.now, lim, e.order);
    InsertSize(m', e.key, m'[e.key].(bucket := Take(m'[e.key].bucket, lim, e.asked)));
  }

  /** The same on an unbounded map that never forgets a key. */
  function Unbounded(u: map<string, Bucket>, e: Event, lim: Limits): (map<string, Bucket>, Option<bool>) {
    match e
    case Cleanup(_) => (u, None)
    case Request(key, now, asked, _) =>
      var b := if key in u then u[key] else Full(lim, now);
      (u[key := Take(b, lim, asked)], Some(Allows(b, lim, asked)))
  }

  /** The oldest-first branch is not needed: an insertion into a full map finds something stale. */
  ghost predicate OnlyStaleEvicted(m: map<string, Entry>, e: Event) {
    e.Request? && e.key !in m && |m| >= MAX_LIMITER_ENTRIES ==> |DropIdle(m, e.now, STALE_AFTER)| < MAX_LIMITER_ENTRIES
  }

  /** A run in time order without oldest-first eviction, where a bucket is asked within `delay` of
      its key being looked up. */
  ghost predicate IsTimedRun(m: map<string, Entry>, now: real, events: seq<Event>, lim: Limits, delay: real)
    decreases |events|
  {
    events != [] ==>
      var e := events[0];
      && now <= e.now <= End(e) <= e.now + delay && EventOk(m, e) && OnlyStaleEvicted(m, e)
      && IsTimedRun(Capped(m, e, lim).0, End(e), events[1..], lim, delay)
  }

  ghost function CappedDecisions(m: map<string, Entry>, events: seq<Event>, lim: Limits): seq<Option<bool>>
    requires IsEventRun(m, events, lim)
    decreases |events|
  {
    if events == [] then []
    else
      var (m', d) := Capped(m, events[0], lim);
      [d] + CappedDecisions(m', events[1..], lim)
  }

  function UnboundedDecisions(u: map<string, Bucket>, events: seq<Event>, lim: Limits): seq<Option<bool>>
    decreases |events|
  {
    if events == [] then []
    else
      var (u', d) := Unbounded(u, events[0], lim);
      [d] + UnboundedDecisions(u', events[1..], lim)
  }

  /** The two maps agree: a key in both has buckets of the same level, one that was evicted would be full. */
  ghost predicate Simulates(m: map<string, Entry>, u: map<string, Bucket>, lim: Limits, now: real, delay: real) {
    && (forall k :: k in m ==> k in u && EntryAgrees(m[k], u[k], lim, now, delay))
    && (forall k :: k in u ==> Sound(u[k], lim, now) && (k !in m ==> Level(u[k], lim, now) == lim.burst as real))
  }

  predicate EntryAgrees(e: Entry, b: Bucket, lim: Limits, now: real, delay: real) {
    && e.lastSeen <= now && e.bucket.last <= e.lastSeen + delay
    && Sound(e.bucket, lim, now) && SameLevel(e.bucket, b, lim, now)
  }

  lemma SimulationLasts(m: map<string, Entry>, u: map<string, Bucket>, lim: Limits, t: real, now: real, delay: real)
    requires Simulates(m, u, lim, t, delay) && t <= now && 0.0 <= lim.rate
    ensures Simulates(m, u, lim, now, delay)
  {
    forall k | k in m ensures SameLevel(m[k].bucket, u[k], lim, now) {
      SameLevelLasts(m[k].bucket, u[k], lim, t, now);
    }
    forall k | k in u && k !in m ensures Level(u[k], lim, now) == lim.burst as real {
      LevelAdvances(u[k], lim, t, now);
      ProductSign(now - t, lim.rate);
    }
  }

  /** A whole burst refills within the time after which entries are dropped, less the delay. */
  predicate Refills(lim: Limits, delay: real) {
    0.0 <= delay < STALE_AFTER && RefillsWithin(lim, STALE_AFTER - delay)
  }

  lemma DroppingIdleKeepsSimulation(m: map<string, Entry>, u: map<string, Bucket>, lim: Limits, now: real,
      delay: real, idle: real)
    requires Simulates(m, u, lim, now, delay) && Refills(lim, delay) && idle >= STALE_AFTER
    ensures Simulates(DropIdle(m, now, idle), u, lim, now, delay)
  {
    var m' := DropIdle(m, now, idle);
    forall k | k in u && k !in m' ensures Level(u[k], lim, now) == lim.burst as real {
      if k in m {
        IdleBucketIsFull(m[k].bucket, lim, STALE_AFTER - delay, now);
      }
    }
  }

  /** Asking buckets of the same level. */
  lemma AskedAgree(e: Entry, b: Bucket, lim: Limits, asked: real, delay: real)
    requires EntryAgrees(e, b, lim, asked, delay) && Sound(b, lim, asked) && asked <= e.lastSeen + delay
    ensures Allows(e.bucket, lim, asked) == Allows(b, lim, asked)
    ensures EntryAgrees(e.(bucket := Take(e.bucket, lim, asked)), Take(b, lim, asked), lim, asked, delay)
    ensures Sound(Take(b, lim, asked), lim, asked)
  {
    SameLevelTake(e.bucket, b, lim, asked);
    TakeIsSound(e.bucket, lim, asked);
    TakeIsSound(b, lim, asked);
  }

  /** Looking a key up: a known one is seen now; an unknown one gets a full bucket, which its own
      would be, too. */
  lemma LookupKeepsSimulation(m: map<string, Entry>, u: map<string, Bucket>, lim: Limits, e: Event, delay: real)
    requires e.Request? && Simulates(m, u, lim, e.now, delay) && Refills(lim, delay)
    requires EventOk(m, e) && OnlyStaleEvicted(m, e)
    ensures var m', u' := Touched(m, e.key, e.now, lim, e.order), Known(u, e, lim);
      Simulates(m', u', lim, e.now, delay) && e.key in m' && m'[e.key].lastSeen == e.now
  {
    if e.key in m {
      assert Known(u, e, lim) == u;
    } else {
      DroppingIdleKeepsSimulation(m, u, lim, e.now, delay, STALE_AFTER);
      InsertKeepsSimulation(MakeRoom(m, e.now, e.order), u, lim, e, delay);
    }
  }

  /** The unbounded map once the event's key is in it. */
  function Known(u: map<string, Bucket>, e: Event, lim: Limits): map<string, Bucket>
    requires e.Request?
  {
    u[e.key := if e.key in u then u[e.key] else Full(lim, e.now)]
  }

  lemma InsertKeepsSimulation(m: map<string, Entry>, u: map<string, Bucket>, lim: Limits, e: Event, delay: real)
    requires e.Request? && Simulates(m, u, lim, e.now, delay) && e.key !in m && 0.0 <= lim.rate && 0.0 <= delay
    ensures Simulates(m[e.key := Entry(Full(lim, e.now), e.now)], Known(u, e, lim), lim, e.now, delay)
  {
  }

  lemma RequestKeepsSimulation(m: map<string, Entry>, u: map<string, Bucket>, lim: Limits, e: Event, delay: real)
    requires e.Request? && Simulates(m, u, lim, e.now, delay) && Refills(lim, delay)
    requires EventOk(m, e) && OnlyStaleEvicted(m, e) && e.now <= e.asked <= e.now + delay
    ensures Capped(m, e, lim).1 == Unbounded(u, e, lim).1
    ensures Simulates(Capped(m, e, lim).0, Unbounded(u, e, lim).0, lim, e.asked, delay)
  {
    var m', u' := Touched(m, e.key, e.now, lim, e.order), Known(u, e, lim);
    LookupKeepsSimulation(m, u, lim, e, delay);
    SimulationLasts(m', u', lim, e.now, e.asked, delay);
    AskedAgree(m'[e.key], u'[e.key], lim, e.asked, delay);
    assert u'[e.key := Take(u'[e.key], lim, e.asked)] == Unbounded(u, e, lim).0;
  }

  lemma EventKeepsSimulation(m: map<string, Entry>, u: map<string, Bucket>, lim: Limits, now: real, e: Event,
      delay: real)
    requires Simulates(m, u, lim, now, delay) && Refills(lim, delay)
    requires now <= e.now <= End(e) <= e.now + delay && EventOk(m, e) && OnlyStaleEvicted(m, e)
    ensures Capped(m, e, lim).1 == Unbounded(u, e, lim).1
    ensures Simulates(Capped(m, e, lim).0, Unbounded(u, e, lim).0, lim, End(e), delay)
  {
    SimulationLasts(m, u, lim, now, e.now, delay);
    if e.Request? {
      RequestKeepsSimulation(m, u, lim, e, delay);
    } else {
      DroppingIdleKeepsSimulation(m, u, lim, e.now, delay, CLEANUP_AFTER);
    }
  }

  lemma {:induction false} SimulationRun(m: map<string, Entry>, u: map<string, Bucket>, lim: Limits, now: real,
      events: seq<Event>, delay: real)
    requires Simulates(m, u, lim, now, delay) && Refills(lim, delay) && IsTimedRun(m, now, events, lim, delay)
    ensures IsEventRun(m, events, lim) && CappedDecisions(m, events, lim) == UnboundedDecisions(u, events, lim)
    decreases |events|
  {
    if events != [] {
      var e := events[0];
      EventKeepsSimulation(m, u, lim, now, e, delay);
      SimulationRun(Capped(m, e, lim).0, Unbounded(u, e, lim).0, lim, End(e), events[1..], delay);
    }
  }

  /** Stale eviction is invisible: while a whole burst refills in five minutes, less the time a
      request may take from lookup to answer, and the oldest-first branch is not taken, every request
      of every timed run gets the decision it would get from a map that never forgets anybody. */
  lemma StaleEvictionIsInvisible(lim: Limits, now: real, events: seq<Event>, delay: real)
    requires 0.0 <= delay < 300.0 && 0.0 <= lim.rate && lim.burst as real <= (300.0 - delay) * lim.rate
    requires IsTimedRun(map[], now, events, lim, delay)
    ensures IsEventRun(map[], events, lim)
    ensures CappedDecisions(map[], events, lim) == UnboundedDecisions(map[], events, lim)
  {
    SimulationRun(map[], map[], lim, now, events, delay);
  }

  // ----- what a key is granted -----

  /** The granted requests of a key. */
  function GrantsTo(key: string, events: seq<Event>, decisions: seq<Option<bool>>): nat
    requires |events| == |decisions|
    decreases |events|
  {
    if events == [] then 0
    else
      (if Grants(events[0], decisions[0], key) then 1 else 0)
      + GrantsTo(key, events[1..], decisions[1..])
  }

  /** The clock readings of a run that lies between two moments. */
  predicate InOrder(now: real, events: seq<Event>, end: real)
    decreases |events|
  {
    if events == [] then now <= end
    else now <= events[0].now <= End(events[0]) && InOrder(End(events[0]), events[1..], end)
  }

  ghost predicate AllSound(u: map<string, Bucket>, lim: Limits, now: real) {
    0.0 <= lim.rate && forall k :: k in u ==> Sound(u[k], lim, now)
  }

  /** The tokens a key can use, all of a burst before its first request. */
  function LevelOf(u: map<string, Bucket>, key: string, lim: Limits, now: real): real {
    if key in u then Level(u[key], lim, now) else lim.burst as real
  }

  lemma LevelGains(u: map<string, Bucket>, key: string, lim: Limits, now: real, later: real)
    requires AllSound(u, lim, now) && now <= later
    ensures 0.0 <= LevelOf(u, key, lim, now) <= lim.burst as real
    ensures LevelOf(u, key, lim, later) <= LevelOf(u, key, lim, now) + (later - now) * lim.rate
  {
    ProductSign(later - now, lim.rate);
    if key in u {
      LevelAdvances(u[key], lim, now, later);
      LevelNonNegative(u[key], lim, now);
    }
  }

  /** What a key can at most be granted between two moments. */
  function Credit(u: map<string, Bucket>, key: string, lim: Limits, now: real, end: real): real {
    LevelOf(u, key, lim, now) + (end - now) * lim.rate
  }

  predicate Grants(e: Event, d: Option<bool>, key: string) {
    e.Request? && e.key == key && d == Some(true)
  }

  lemma CreditShrinks(u: map<string, Bucket>, key: string, lim: Limits, now: real, later: real, end: real)
    requires AllSound(u, lim, now) && now <= later <= end
    ensures Credit(u, key, lim, later, end) <= Credit(u, key, lim, now, end)
  {
    LevelGains(u, key, lim, now, later);
    Product(later - now, end - later, lim.rate);
    assert (later - now) + (end - later) == end - now;
  }

  /** A request takes from its key's credit what it is granted. */
  lemma RequestIsPaid(u: map<string, Bucket>, e: Event, lim: Limits, key: string, end: real)
    requires e.Request? && AllSound(u, lim, e.now) && e.now <= e.asked
    ensures var (u', d) := Unbounded(u, e, lim);
      && AllSound(u', lim, e.asked)
      && Credit(u', key, lim, e.asked, end) + (if Grants(e, d, key) then 1.0 else 0.0)
           <= Credit(u, key, lim, e.asked, end)
  {
    var b := if e.key in u then u[e.key] else Full(lim, e.now);
    TakeIsSound(b, lim, e.asked);
    if e.key == key {
      AnswerCosts(b, lim, e.asked, e.asked);
    }
  }

  /** One event: what it grants is paid for by the tokens the key had or gained meanwhile. */
  lemma EventIsPaid(u: map<string, Bucket>, e: Event, lim: Limits, now: real, key: string, end: real)
    requires AllSound(u, lim, now) && now <= e.now <= End(e) <= end
    ensures var (u', d) := Unbounded(u, e, lim);
      && AllSound(u', lim, End(e))
      && Credit(u', key, lim, End(e), end) + (if Grants(e, d, key) then 1.0 else 0.0) <= Credit(u, key, lim, now, end)
  {
    CreditShrinks(u, key, lim, now, End(e), end);
    if e.Request? {
      RequestIsPaid(u, e, lim, key, end);
    }
  }

  lemma {:induction false} InOrderEnds(now: real, events: seq<Event>, end: real)
    requires InOrder(now, events, end)
    ensures now <= end
    decreases |events|
  {
    if events != [] {
      InOrderEnds(End(events[0]), events[1..], end);
    }
  }

  lemma NoCreditNoGrant(u: map<string, Bucket>, key: string, lim: Limits, now: real, end: real)
    requires AllSound(u, lim, now) && now <= end
    ensures 0.0 <= Credit(u, key, lim, now, end) <= lim.burst as real + (end - now) * lim.rate
  {
    LevelGains(u, key, lim, now, end);
    WithGain(LevelOf(u, key, lim, now), lim.burst as real, end - now, lim.rate);
  }

  lemma WithGain(level: real, burst: real, time: real, rate: real)
    requires 0.0 <= level <= burst && 0.0 <= time && 0.0 <= rate
    ensures 0.0 <= level + time * rate <= burst + time * rate
  {
    ProductSign(time, rate);
  }

  /** The grants of the first event and of the others. */
  lemma FirstGrant(key: string, events: seq<Event>, d: Option<bool>, later: seq<Option<bool>>)
    requires |events| == |later| + 1
    ensures GrantsTo(key, events, [d] + later)
      == (if Grants(events[0], d, key) then 1 else 0) + GrantsTo(key, events[1..], later)
  {
    assert ([d] + later)[1..] == later;
  }

  lemma {:induction false} GrantsArePaid(u: map<string, Bucket>, events: seq<Event>, lim: Limits, now: real, end: real,
      key: string)
    requires AllSound(u, lim, now) && InOrder(now, events, end)
    ensures |UnboundedDecisions(u, events, lim)| == |events|
    ensures GrantsTo(key, events, UnboundedDecisions(u, events, lim)) as real <= Credit(u, key, lim, now, end)
    decreases |events|
  {
    InOrderEnds(now, events, end);
    if events == [] {
      NoCreditNoGrant(u, key, lim, now, end);
    } else {
      var (u', d) := Unbounded(u, events[0], lim);
      InOrderEnds(End(events[0]), events[1..], end);
      EventIsPaid(u, events[0], lim, now, key, end);
      GrantsArePaid(u', events[1..], lim, End(events[0]), end, key);
      FirstGrant(key, events, d, UnboundedDecisions(u', events[1..], lim));
    }
  }

  /** A burst, and what the rate yields between two moments. */
  function Allowance(lim: Limits, now: real, end: real): real {
    lim.burst as real + (end - now) * lim.rate
  }

  lemma GrantsAreAllowed(u: map<string, Bucket>, events: seq<Event>, lim: Limits, now: real, end: real, key: string)
    requires AllSound(u, lim, now) && InOrder(now, events, end)
    ensures |UnboundedDecisions(u, events, lim)| == |events|
    ensures GrantsTo(key, events, UnboundedDecisions(u, events, lim)) as real <= Allowance(lim, now, end)
  {
    InOrderEnds(now, events, end);
    GrantsArePaid(u, events, lim, now, end, key);
    NoCreditNoGrant(u, key, lim, now, end);
  }

  lemma {:induction false} UnboundedSuffix(u: map<string, Bucket>, events: seq<Event>, lim: Limits, now: real,
      from: nat, end: real, key: string)
    requires AllSound(u, lim, now) && InOrder(now, events, end) && from < |events|
    ensures |UnboundedDecisions(u, events, lim)| == |events|
    ensures GrantsTo(key, events[from..], UnboundedDecisions(u, events, lim)[from..]) as real
         <= Allowance(lim, events[from].now, end)
    decreases from
  {
    var e, ds := events[0], UnboundedDecisions(u, events, lim);
    if from == 0 {
      GrantsAreAllowed(u, events, lim, e.now, end, key);
      assert events[0..] == events && ds[0..] == ds;
    } else {
      var (u', d) := Unbounded(u, e, lim);
      InOrderEnds(End(e), events[1..], end);
      EventIsPaid(u, e, lim, now, key, end);
      UnboundedSuffix(u', events[1..], lim, End(e), from - 1, end, key);
      DropFirst(events, d, UnboundedDecisions(u', events[1..], lim), from);
    }
  }

  lemma DropFirst(events: seq<Event>, d: Option<bool>, later: seq<Option<bool>>, from: nat)
    requires 0 < from < |events| == |later| + 1
    ensures events[from..] == events[1..][from - 1..] && ([d] + later)[from..] == later[from - 1..]
    ensures events[from] == events[1..][from - 1]
  {
  }

  /** Nobody exceeds their rate: in every timed run of the capped map, from any request on until
      `end`, after the run's last event, a key is granted at most a burst and what its rate yields in
      that time, however often its bucket was evicted and replaced by a full one in between. */
  lemma NobodyExceedsTheirRate(lim: Limits, now: real, events: seq<Event>, delay: real, from: nat, end: real,
      key: string)
    requires Refills(lim, delay) && IsTimedRun(map[], now, events, lim, delay)
    requires InOrder(now, events, end) && from < |events|
    ensures IsEventRun(map[], events, lim) && |CappedDecisions(map[], events, lim)| == |events|
    ensures GrantsTo(key, events[from..], CappedDecisions(map[], events, lim)[from..]) as real
         <= Allowance(lim, events[from].now, end)
  {
    SimulationRun(map[], map[], lim, now, events, delay);
    UnboundedSuffix(map[], events, lim, now, from, end, key);
  }

  const AUTH_LIMITS := Limits(5.0 / 60.0, 5)
  const VOTE_LIMITS := Limits(60.0 / 60.0, 30)

  /** The limits the router installs refill in time, even when requests take up to a minute from
      lookup to answer. */
  lemma RouterLimitersForgetInvisibly(now: real, events: seq<Event>, lim: Limits)
    requires lim == AUTH_LIMITS || lim == VOTE_LIMITS
    requires IsTimedRun(map[], now, events, lim, 60.0)
    ensures IsEventRun(map[], events, lim)
    ensures CappedDecisions(map[], events, lim) == UnboundedDecisions(map[], events, lim)
  {
    StaleEvictionIsInvisible(lim, now, events, 60.0);
  }
}
