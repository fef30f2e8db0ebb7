/** The token bucket that golang.org/x/time/rate promises, in exact arithmetic. */
module TokenBucket {

  /** Tokens held after the last granted request, and when that was. Time is in seconds. */
  datatype Bucket = Bucket(tokens: real, last: real)

  /** Tokens per second, and the most a bucket can hold. */
  datatype Limits = Limits(rate: real, burst: nat)

  function Full(lim: Limits, now: real): Bucket {
    Bucket(lim.burst as real, now)
  }

  function Min(a: real, b: real): real {
    if a < b then a else b
  }

  /** The tokens available at a time; a time before the last grant counts as that moment. */
  function Level(b: Bucket, lim: Limits, now: real): real {
    Min(lim.burst as real, b.tokens + (if now > b.last then (now - b.last) * lim.rate else 0.0))
  }

  predicate Allows(b: Bucket, lim: Limits, now: real) {
    Level(b, lim, now) >= 1.0
  }

  /** A granted request takes a token; a refused one changes nothing. */
  function Take(b: Bucket, lim: Limits, now: real): Bucket {
    if Allows(b, lim, now) then Bucket(Level(b, lim, now) - 1.0, now) else b
  }

  predicate Sound(b: Bucket, lim: Limits, now: real) {
    0.0 <= b.tokens <= lim.burst as real && b.last <= now && 0.0 <= lim.rate
  }

  lemma TakeIsSound(b: Bucket, lim: Limits, now: real)
    requires Sound(b, lim, now)
    ensures Sound(Take(b, lim, now), lim, now)
  {
  }

  lemma Product(a: real, b: real, c: real)
    ensures (a + b) * c == a * c + b * c
  {
  }

  lemma ProductSign(a: real, b: real)
    requires 0.0 <= a && 0.0 <= b
    ensures 0.0 <= a * b
  {
  }

  /** What matters of a bucket from a moment on is its level at that moment. */
  lemma LevelAdvances(b: Bucket, lim: Limits, t: real, u: real)
    requires Sound(b, lim, t) && t <= u
    ensures Level(b, lim, u) == Min(lim.burst as real, Level(b, lim, t) + (u - t) * lim.rate)
  {
    Product(t - b.last, u - t, lim.rate);
    assert (t - b.last) + (u - t) == u - b.last;
    ProductSign(t - b.last, lim.rate);
    ProductSign(u - t, lim.rate);
    if u == b.last {
      assert (u - t) * lim.rate == 0.0 * lim.rate;
    } else if t == b.last {
      assert (t - b.last) * lim.rate == 0.0 * lim.rate;
    }
  }

  /** A grant costs one token, a refusal nothing; from then on the bucket refills at its rate up to
      the burst. */
  lemma AnswerCosts(b: Bucket, lim: Limits, now: real, later: real)
    requires Sound(b, lim, now) && now <= later
    ensures Allows(b, lim, now) <==> Level(b, lim, now) >= 1.0
    ensures Level(Take(b, lim, now), lim, later)
      == Min(lim.burst as real,
             Level(b, lim, now) - (if Level(b, lim, now) >= 1.0 then 1.0 else 0.0) + (later - now) * lim.rate)
  {
    TakeIsSound(b, lim, now);
    LevelAdvances(b, lim, now, later);
    LevelAdvances(Take(b, lim, now), lim, now, later);
  }

  predicate SameLevel(a: Bucket, b: Bucket, lim: Limits, now: real) {
    Level(a, lim, now) == Level(b, lim, now)
  }

  lemma SameLevelLasts(a: Bucket, b: Bucket, lim: Limits, t: real, u: real)
    requires Sound(a, lim, t) && Sound(b, lim, t) && t <= u && SameLevel(a, b, lim, t)
    ensures SameLevel(a, b, lim, u)
  {
    LevelAdvances(a, lim, t, u);
    LevelAdvances(b, lim, t, u);
  }

  lemma SameLevelTake(a: Bucket, b: Bucket, lim: Limits, now: real)
    requires Sound(a, lim, now) && Sound(b, lim, now) && SameLevel(a, b, lim, now)
    ensures Allows(a, lim, now) == Allows(b, lim, now)
    ensures SameLevel(Take(a, lim, now), Take(b, lim, now), lim, now)
  {
  }

  /** A whole burst refills within the given time. */
  predicate RefillsWithin(lim: Limits, idle: real) {
    0.0 <= lim.rate && lim.burst as real <= idle * lim.rate
  }

  /** A bucket left alone for a period in which a whole burst refills is full. */
  lemma IdleBucketIsFull(b: Bucket, lim: Limits, idle: real, now: real)
    requires Sound(b, lim, now) && 0.0 < idle < now - b.last && RefillsWithin(lim, idle)
    ensures Level(b, lim, now) == lim.burst as real
  {
    Product(idle, now - b.last - idle, lim.rate);
    ProductSign(now - b.last - idle, lim.rate);
    assert idle + (now - b.last - idle) == now - b.last;
  }

  // ----- when replacing a bucket by a full one cannot be noticed -----

  /** The decisions a bucket takes on requests at the given times. */
  function Decisions(b: Bucket, lim: Limits, times: seq<real>): seq<bool>
    decreases |times|
  {
    if times == [] then []
    else [Allows(b, lim, times[0])] + Decisions(Take(b, lim, times[0]), lim, times[1..])
  }

  predicate Ordered(now: real, times: seq<real>)
    decreases |times|
  {
    times != [] ==> now <= times[0] && Ordered(times[0], times[1..])
  }

  lemma {:induction false} SameDecisions(a: Bucket, b: Bucket, lim: Limits, now: real, times: seq<real>)
    requires Sound(a, lim, now) && Sound(b, lim, now) && SameLevel(a, b, lim, now) && Ordered(now, times)
    ensures Decisions(a, lim, times) == Decisions(b, lim, times)
    decreases |times|
  {
    if times != [] {
      var t := times[0];
      SameLevelLasts(a, b, lim, now, t);
      SameLevelTake(a, b, lim, t);
      TakeIsSound(a, lim, t);
      TakeIsSound(b, lim, t);
      SameDecisions(Take(a, lim, t), Take(b, lim, t), lim, t, times[1..]);
    }
  }

  function Times(now: real, n: nat): seq<real> {
    seq(n, i => now)
  }

  lemma LevelNonNegative(b: Bucket, lim: Limits, now: real)
    requires Sound(b, lim, now)
    ensures Level(b, lim, now) >= 0.0
  {
    var gained := if now > b.last then (now - b.last) * lim.rate else 0.0;
    assert gained >= 0.0 by {
      ProductSign(now - b.last, lim.rate);
    }
    assert Level(b, lim, now) == Min(lim.burst as real, b.tokens + gained);
  }

  lemma TakeOne(b: Bucket, lim: Limits, now: real)
    requires Sound(b, lim, now) && Allows(b, lim, now)
    ensures Level(Take(b, lim, now), lim, now) == Level(b, lim, now) - 1.0
  {
  }

  /** A bucket grants n requests at once exactly when it holds n tokens. */
  lemma {:induction false} GrantsAll(b: Bucket, lim: Limits, now: real, n: nat)
    requires Sound(b, lim, now)
    ensures Ordered(now, Times(now, n))
    ensures false !in Decisions(b, lim, Times(now, n)) <==> Level(b, lim, now) >= n as real
    decreases n
  {
    if n == 0 {
      LevelNonNegative(b, lim, now);
    } else {
      assert Times(now, n)[1..] == Times(now, n - 1);
      TakeIsSound(b, lim, now);
      var b' := Take(b, lim, now);
      GrantsAll(b', lim, now, n - 1);
      var ds := Decisions(b', lim, Times(now, n - 1));
      assert Decisions(b, lim, Times(now, n)) == [Allows(b, lim, now)] + ds;
      AllOf(Allows(b, lim, now), ds);
      if Allows(b, lim, now) {
        TakeOne(b, lim, now);
      }
    }
  }

  lemma AllOf(first: bool, rest: seq<bool>)
    ensures false !in [first] + rest <==> first && false !in rest
  {
    var all := [first] + rest;
    if i :| 0 <= i < |rest| && !rest[i] {
      assert !all[i + 1];
    }
    assert all[0] == first;
  }

  /** Replacing a bucket by a full one goes unnoticed by every later sequence of requests exactly
      when the bucket is full at that moment. */
  lemma ReplacementUnnoticedIffFull(b: Bucket, lim: Limits, now: real)
    requires Sound(b, lim, now)
    ensures (forall times | Ordered(now, times) :: Decisions(b, lim, times) == Decisions(Full(lim, now), lim, times))
       <==> Level(b, lim, now) == lim.burst as real
  {
    var full := Full(lim, now);
    if Level(b, lim, now) == lim.burst as real {
      forall times | Ordered(now, times) ensures Decisions(b, lim, times) == Decisions(full, lim, times) {
        SameDecisions(b, full, lim, now, times);
      }
    } else {
      GrantsAll(b, lim, now, lim.burst);
      GrantsAll(full, lim, now, lim.burst);
      var times := Times(now, lim.burst);
      assert Ordered(now, times) && Decisions(b, lim, times) != Decisions(full, lim, times);
    }
  }
}
