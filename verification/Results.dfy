/** Percentages and totals of a results response. */
module Results {
  import opened Common
  import opened VoteLog

  /** A share of the total in hundredths of a percent, rounded half up; zero when there are no votes. */
  function Hundredths(votes: nat, total: nat): nat {
    if total == 0 then 0 else (20000 * votes + total) / (2 * total)
  }

  function SumNat(xs: seq<nat>): nat {
    if xs == [] then 0 else SumNat(xs[..|xs| - 1]) + xs[|xs| - 1]
  }

  lemma DivBounds(a: nat, d: nat)
    requires d > 0
    ensures d * (a / d) <= a < d * (a / d) + d
  {
  }

  /** The rounded value is a nearest one: it differs from the exact share by at most half, and a
      share in the middle between two hundredths is rounded up. */
  lemma HundredthsAreNearest(votes: nat, total: nat)
    ensures total > 0 ==> -(total as int) < 2 * total * Hundredths(votes, total) - 20000 * votes <= total
    ensures total == 0 ==> Hundredths(votes, total) == 0
  {
    if total > 0 {
      DivBounds(20000 * votes + total, 2 * total);
    }
  }

  lemma LessByFactor(t: int, a: int, b: int)
    requires t > 0 && t * a < t * b
    ensures a < b
  {
  }

  /** Shares of votes that do not exceed the total lie between 0% and 100%. */
  lemma HundredthsInRange(votes: nat, total: nat)
    requires votes <= total
    ensures 0 <= Hundredths(votes, total) <= 10000
  {
    if total > 0 {
      HundredthsAreNearest(votes, total);
      var p := Hundredths(votes, total);
      assert 2 * total * p == total * (2 * p);
      assert total * (2 * p) <= total * 20001;
      LessByFactor(total, 2 * p, 20002);
    }
  }

  /** A larger count never gets a smaller share. */
  lemma HundredthsMonotone(a: nat, b: nat, total: nat)
    requires a <= b
    ensures Hundredths(a, total) <= Hundredths(b, total)
  {
    if total > 0 {
      var x, y, d := 20000 * a + total, 20000 * b + total, 2 * total;
      DivBounds(x, d);
      DivBounds(y, d);
      assert d * (x / d) < d * (y / d + 1) by {
        assert d * (y / d + 1) == d * (y / d) + d;
      }
      LessByFactor(d, x / d, y / d + 1);
    }
  }

  function Shares(counts: seq<nat>, total: nat): seq<nat> {
    seq(|counts|, i requires 0 <= i < |counts| => Hundredths(counts[i], total))
  }

  lemma Distribute(t: int, a: int, b: int)
    ensures t * (a + b) == t * a + t * b
  {
  }

  lemma {:induction false} RoundingErrorsAdd(counts: seq<nat>, total: nat)
    requires total > 0
    ensures var sum := SumNat(Shares(counts, total));
      -(total * |counts|) <= total * (2 * sum) - 20000 * SumNat(counts) <= total * |counts|
  {
    if counts != [] {
      var front, last := counts[..|counts| - 1], counts[|counts| - 1];
      RoundingErrorsAdd(front, total);
      HundredthsAreNearest(last, total);
      assert Shares(counts, total)[..|counts| - 1] == Shares(front, total);
      AddError(total, SumNat(Shares(front, total)), Hundredths(last, total), |front|);
    }
  }

  lemma AddError(t: nat, s: nat, p: nat, n: nat)
    ensures t * (2 * (s + p)) == t * (2 * s) + 2 * t * p
    ensures t * (n + 1) == t * n + t
  {
    Distribute(t, 2 * s, 2 * p);
    Distribute(t, n, 1);
  }

  /** The rounded shares of n counts that add up to a positive total add up to 100% within n/2
      hundredths of a percent. */
  lemma SharesAddUpToTheWhole(counts: seq<nat>, total: nat)
    requires total > 0 && SumNat(counts) == total
    ensures -|counts| <= 2 * (SumNat(Shares(counts, total)) - 10000) <= |counts|
  {
    RoundingErrorsAdd(counts, total);
    Centre(total, 2 * SumNat(Shares(counts, total)), |counts|);
  }

  lemma Centre(t: int, x: int, n: int)
    requires t > 0 && -(t * n) <= t * x - 20000 * t <= t * n
    ensures -n <= x - 20000 <= n
  {
    Distribute(t, x, -20000);
    Distribute(t, n, 1);
    LessByFactor(t, x - 20000, n + 1);
    Distribute(t, 20000, -x);
    LessByFactor(t, 20000 - x, n + 1);
  }

  // ----- the two ways to a total -----

  /** The votes of a poll whose option is among the listed ones. */
  function ListedVotes(votes: seq<Vote>, poll: string, opts: seq<string>): nat {
    if votes == [] then 0
    else
      var v := votes[|votes| - 1];
      ListedVotes(votes[..|votes| - 1], poll, opts) + (if v.poll == poll && v.option in opts then 1 else 0)
  }

  lemma {:induction false} TalliesSumToListed(votes: seq<Vote>, poll: string, opts: seq<string>, m: map<string, nat>)
    requires Distinct(opts)
    requires forall o :: o in opts ==> Get(m, o) == Tally(votes, poll, o)
    ensures SumOver(m, opts) == ListedVotes(votes, poll, opts)
  {
    if votes == [] {
      SumOverAgree(m, map[], opts);
      SumOfEmpty(opts);
    } else {
      var front, last := votes[..|votes| - 1], votes[|votes| - 1];
      var m' := map o | o in opts :: Tally(front, poll, o);
      TalliesSumToListed(front, poll, opts, m');
      if last.poll == poll && last.option in opts {
        SumOverGrow(m', m, opts, last.option);
      } else {
        SumOverAgree(m, m', opts);
      }
    }
  }

  lemma {:induction false} ListedVotesAreAll(votes: seq<Vote>, poll: string, opts: seq<string>)
    ensures ListedVotes(votes, poll, opts) <= PollTotal(votes, poll)
    ensures ListedVotes(votes, poll, opts) == PollTotal(votes, poll)
       <==> forall v :: v in votes && v.poll == poll ==> v.option in opts
  {
    if votes != [] {
      var front, last := votes[..|votes| - 1], votes[|votes| - 1];
      ListedVotesAreAll(front, poll, opts);
      assert forall v :: v in votes <==> v in front || v == last;
    }
  }

  /** When the tallies agree, the Redis total, which sums the current options, and the MongoDB
      total, which sums every group, agree exactly when every stored vote names a current option. */
  lemma TotalsAgreeIff(votes: seq<Vote>, poll: string, opts: seq<string>, hash: map<string, nat>)
    requires Distinct(opts)
    requires forall o :: o in opts ==> Get(hash, o) == Tally(votes, poll, o)
    ensures SumOver(hash, opts) == PollTotal(votes, poll)
       <==> forall v :: v in votes && v.poll == poll ==> v.option in opts
  {
    TalliesSumToListed(votes, poll, opts, hash);
    ListedVotesAreAll(votes, poll, opts);
  }
}
