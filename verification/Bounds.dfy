/**
 When counters, events and snapshots stay within the votes stored.

 Neither an atomic pipeline nor successful writes and reads are needed: it is enough that whoever
 reads the durable counts does so while no vote is on its way to a counter that is missing, and
 that counters are not lost while somebody holds counts.
 */
module Bounds {
  import opened Common
  import opened VoteLog
  import opened VoteProtocol
  import opened SingleVote
  import opened Conservation
  import opened Schedules
  import opened Viewer

  // ----- votes on their way to a counter -----

  lemma PendingSubject(s: State, step: Step, o: string)
    requires ReqInv(s) && Enabled(s, step) && HasSubject(step)
    ensures var s', r := Apply(s, step), step.r;
      var stores := s'.votes != s.votes && s.reqs[r].kind.option == o;
      var counts := step.Increment? && s.reqs[r].kind.option == o;
      && (stores ==> r !in Pending(s, o))
      && (counts ==> r in Pending(s, o) && r !in Pending(s', o))
      && (!stores && r in Pending(s', o) ==> r in Pending(s, o))
  {
    if step.Insert? && !AlreadyVoted(s, s.reqs[step.r].kind) {
      assert |Apply(s, step).votes| == |s.votes| + 1;
    }
  }

  /** What is pending less the stored votes never grows, and every increment takes one off it. */
  lemma PendingBalance(s: State, step: Step, o: string)
    requires ReqInv(s) && Enabled(s, step)
    ensures var s' := Apply(s, step);
      var counted := if step.Increment? && s.reqs[step.r].kind.option == o then 1 else 0;
      |Pending(s', o)| - Tally(s'.votes, s.poll, o) <= |Pending(s, o)| - Tally(s.votes, s.poll, o) - counted
  {
    var s' := Apply(s, step);
    TallyAfter(s, step, o);
    forall q | !(HasSubject(step) && step.r == q) ensures q in Pending(s', o) <==> q in Pending(s, o) {
      OthersUntouched(s, step, q);
    }
    if HasSubject(step) {
      SetUpdateSize(Pending(s, o), Pending(s', o), step.r);
      PendingSubject(s, step, o);
    } else {
      assert Pending(s', o) == Pending(s, o);
    }
  }

  // ----- counters within the stored votes -----

  /** The counter and the votes on their way to it are within the stored votes. */
  ghost predicate CounterFits(s: State, o: string) {
    Get(s.hash, o) + |Pending(s, o)| <= Tally(s.votes, s.poll, o)
  }

  /** So they would be if any counts in hand became the counter. */
  ghost predicate CountsFit(s: State, o: string) {
    o !in s.hash ==> forall r :: r in s.reqs && s.reqs[r].pc.CountsRead? ==>
      Get(s.reqs[r].pc.counts, o) + |Pending(s, o)| <= Tally(s.votes, s.poll, o)
  }

  ghost predicate Fits(s: State, o: string) {
    CounterFits(s, o) && CountsFit(s, o)
  }

  /** No vote is on its way to a missing counter when the durable counts are read, and nobody holds
      counts when the counters are lost. */
  ghost predicate CarefulAt(s: State, step: Step, o: string) {
    match step
    case ReadCounts(_, failed) => failed || o in s.hash || Pending(s, o) == {}
    case LoseCounters => forall r :: r in s.reqs ==> !s.reqs[r].pc.CountsRead?
    case _ => true
  }

  /** Counts come into hands by reading them. */
  lemma CountsAfter(s: State, step: Step, r: nat)
    requires Enabled(s, step) && r in Apply(s, step).reqs && Apply(s, step).reqs[r].pc.CountsRead?
    ensures || (r in s.reqs && s.reqs[r].pc == Apply(s, step).reqs[r].pc)
      || (step.ReadCounts? && step.r == r
          && Apply(s, step).reqs[r].pc.counts == if step.failed then map[] else CountsByOption(s.votes, s.poll))
  {
  }

  lemma CountsFitStep(s: State, step: Step, o: string)
    requires ReqInv(s) && Fits(s, o) && Enabled(s, step) && CarefulAt(s, step, o)
    ensures CountsFit(Apply(s, step), o)
  {
    var s' := Apply(s, step);
    PendingBalance(s, step, o);
    if step != LoseCounters {
      HashAfter(s, step, o);
    }
    CountsAreTallies(s.votes, s.poll, o);
    forall r | o !in s'.hash && r in s'.reqs && s'.reqs[r].pc.CountsRead?
      ensures Get(s'.reqs[r].pc.counts, o) + |Pending(s', o)| <= Tally(s'.votes, s.poll, o)
    {
      CountsAfter(s, step, r);
    }
  }

  lemma CounterFitsStep(s: State, step: Step, o: string)
    requires ReqInv(s) && Fits(s, o) && Enabled(s, step)
    ensures CounterFits(Apply(s, step), o)
  {
    PendingBalance(s, step, o);
    if step != LoseCounters {
      HashAfter(s, step, o);
    }
  }

  lemma FitsStep(s: State, step: Step, o: string)
    requires ReqInv(s) && Fits(s, o) && Enabled(s, step) && CarefulAt(s, step, o)
    ensures Fits(Apply(s, step), o)
  {
    CounterFitsStep(s, step, o);
    CountsFitStep(s, step, o);
  }

  lemma FitsAtFirst(s: State, o: string)
    requires Init(s)
    ensures Fits(s, o)
  {
    assert Pending(s, o) == {};
  }

  // ----- one option: a careful read is exactly a harmless one -----

  /** A run that is careful about one option. */
  ghost predicate IsCarefulFor(s: State, steps: seq<Step>, o: string)
    decreases |steps|
  {
    steps != [] ==> Enabled(s, steps[0]) && CarefulAt(s, steps[0], o) && IsCarefulFor(Apply(s, steps[0]), steps[1..], o)
  }

  lemma {:induction false} FitsRun(s: State, steps: seq<Step>, o: string)
    requires ReqInv(s) && Fits(s, o) && IsCarefulFor(s, steps, o)
    ensures IsRun(s, steps) && Fits(Run(s, steps), o) && Run(s, steps).poll == s.poll
    decreases |steps|
  {
    if steps != [] {
      ReqInvStep(s, steps[0]);
      FitsStep(s, steps[0], o);
      FitsRun(Apply(s, steps[0]), steps[1..], o);
    }
  }

  /** Some careful continuation of the state counts more votes than are stored. */
  ghost predicate CanOverCount(s: State, o: string) {
    exists steps :: IsRun(s, steps) && IsCarefulFor(s, steps, o)
      && Get(Run(s, steps).hash, o) > Tally(Run(s, steps).votes, s.poll, o)
  }

  /** A read taken while a vote is on its way to the missing counter: the vote is in the counts, and
      then it is counted once more. */
  lemma PendingReadOverCounts(s: State, r: nat, p: nat, o: string)
    requires Enabled(s, ReadCounts(r, false)) && o in s.opts && o !in s.hash && p in Pending(s, o)
    ensures var s1 := Apply(s, ReadCounts(r, false));
      var steps := [InitField(r, o), Increment(p)];
      && IsRun(s1, steps) && IsCarefulFor(s1, steps, o) && Run(s1, steps).votes == s.votes
      && o in Run(s1, steps).hash && Run(s1, steps).hash[o] == Tally(s.votes, s.poll, o) + 1
  {
    var s1 := Apply(s, ReadCounts(r, false));
    OthersUntouched(s, ReadCounts(r, false), p);
    CountsAreTallies(s.votes, s.poll, o);
    assert p in Pending(s1, o);
    StaleFieldOverCounts(s1, r, p, o);
  }

  /** Whoever holds counts for a missing counter writes them, and the pending vote is added. */
  lemma StaleFieldOverCounts(s: State, r: nat, p: nat, o: string)
    requires r in s.reqs && s.reqs[r].pc.CountsRead? && o in s.opts && o !in s.hash && p in Pending(s, o)
    ensures var steps := [InitField(r, o), Increment(p)];
      && IsRun(s, steps) && IsCarefulFor(s, steps, o) && Run(s, steps).votes == s.votes
      && o in Run(s, steps).hash && Run(s, steps).hash[o] == Get(s.reqs[r].pc.counts, o) + 1
  {
    OthersUntouched(s, InitField(r, o), p);
    TwoSteps(s, InitField(r, o), Increment(p));
    var steps := [InitField(r, o), Increment(p)];
    assert steps[1..] == [Increment(p)] && [Increment(p)][1..] == [];
  }

  lemma TwoSteps(s: State, a: Step, b: Step)
    requires Enabled(s, a) && Enabled(Apply(s, a), b)
    ensures IsRun(s, [a, b]) && Run(s, [a, b]) == Apply(Apply(s, a), b)
  {
    Cons(Apply(s, a), b, []);
    Cons(s, a, [b] + []);
    assert [a, b] == [a] + ([b] + []);
  }

  /** The durable counts can be read without ever counting too many votes for a missing counter's
      option exactly when no vote is then on its way to it. */
  lemma ReadIsHarmlessIff(s: State, r: nat, o: string)
    requires ReqInv(s) && Fits(s, o) && Enabled(s, ReadCounts(r, false)) && o in s.opts && o !in s.hash
    ensures !CanOverCount(Apply(s, ReadCounts(r, false)), o) <==> Pending(s, o) == {}
  {
    var s1 := Apply(s, ReadCounts(r, false));
    if p :| p in Pending(s, o) {
      PendingReadCanOverCount(s, r, p, o);
    } else {
      assert Pending(s, o) == {};
      ReqInvStep(s, ReadCounts(r, false));
      FitsStep(s, ReadCounts(r, false), o);
      FittingNeverOverCounts(s1, o);
    }
  }

  lemma PendingReadCanOverCount(s: State, r: nat, p: nat, o: string)
    requires Enabled(s, ReadCounts(r, false)) && o in s.opts && o !in s.hash && p in Pending(s, o)
    ensures CanOverCount(Apply(s, ReadCounts(r, false)), o)
  {
    PendingReadOverCounts(s, r, p, o);
    assert Apply(s, ReadCounts(r, false)).poll == s.poll;
  }

  lemma FittingNeverOverCounts(s: State, o: string)
    requires ReqInv(s) && Fits(s, o)
    ensures !CanOverCount(s, o)
  {
    forall steps | IsRun(s, steps) && IsCarefulFor(s, steps, o)
      ensures Get(Run(s, steps).hash, o) <= Tally(Run(s, steps).votes, s.poll, o)
    {
      FitsRun(s, steps, o);
    }
  }

  // ----- all options -----

  /** A run in which every reading of the durable counts and every loss is careful. */
  ghost predicate CarefulRun(s: State, steps: seq<Step>)
    decreases |steps|
  {
    steps != [] ==>
      && Enabled(s, steps[0]) && (forall o :: o in s.opts ==> CarefulAt(s, steps[0], o))
      && CarefulRun(Apply(s, steps[0]), steps[1..])
  }

  /** The assumptions of the conservation law make a run careful. */
  lemma {:induction false} AssumedIsCareful(s: State, steps: seq<Step>)
    requires Consistent(s) && AssumedRun(s, steps)
    ensures CarefulRun(s, steps)
    decreases |steps|
  {
    if steps != [] {
      forall o | o in s.opts ensures CarefulAt(s, steps[0], o) {
        if s.hash == map[] {
          IdleOwesNothing(s, o);
        }
      }
      ConsistentStep(s, steps[0]);
      AssumedIsCareful(Apply(s, steps[0]), steps[1..]);
    }
  }

  /** The value HINCRBY returned to the request. */
  predicate HasCount(pc: Pc) {
    pc.Incremented? || pc.TotalRead? || pc.Done?
  }

  predicate HasTotal(pc: Pc) {
    pc.TotalRead? || pc.Done?
  }

  ghost predicate CarriesFit(q: Request, s: State) {
    && (q.kind.Cast? && HasCount(q.pc) ==> q.pc.count <= Tally(s.votes, s.poll, q.kind.option))
    && (q.kind.Cast? && HasTotal(q.pc) ==> q.pc.total <= |s.votes|)
  }

  ghost predicate BoundInv(s: State) {
    && LogInv(s) && ReqInv(s) && Distinct(s.opts)
    && (forall o :: o in s.opts ==> Fits(s, o))
    && (forall r :: r in s.reqs ==> CarriesFit(s.reqs[r], s))
    && (forall m :: m in s.sent ==> FrameBounded(m.frame, s.votes))
  }

  lemma TotalFits(s: State)
    requires LogInv(s) && ReqInv(s) && Distinct(s.opts) && forall o :: o in s.opts ==> Fits(s, o)
    ensures SumOver(s.hash, s.opts) <= |s.votes|
  {
    var tallies := map o | o in s.opts :: Tally(s.votes, s.poll, o);
    forall o | o in s.opts ensures Get(s.hash, o) <= Get(tallies, o) {
      assert Fits(s, o);
    }
    SumOverAgree(s.hash, tallies, s.opts);
    VotesNameOptions(s);
    TalliesSumToVotes(s.votes, s.poll, s.opts, tallies);
  }

  lemma VotesGrow(s: State, step: Step)
    requires Enabled(s, step)
    ensures s.votes <= Apply(s, step).votes
  {
  }

  /** How a step moves the count and total a request carries. */
  lemma CountEffect(s: State, step: Step, r: nat)
    requires Enabled(s, step) && r in Apply(s, step).reqs
    ensures r !in s.reqs ==> Apply(s, step).reqs[r].pc == Arrived
    ensures r in s.reqs ==>
      var q, p := s.reqs[r], Apply(s, step).reqs[r];
      && p.kind == q.kind
      && (HasCount(p.pc) ==>
            || (HasCount(q.pc) && p.pc.count == q.pc.count)
            || (step == Increment(r) && q.kind.Cast? && p.pc == Incremented(Get(s.hash, q.kind.option) + 1)))
      && (HasTotal(p.pc) ==>
            || (HasTotal(q.pc) && p.pc.total == q.pc.total && p.pc.count == q.pc.count)
            || (step.ReadTotal? && step.r == r && q.pc.Incremented? && p.pc.count == q.pc.count
                && p.pc.total == if step.failed then q.pc.count else SumOver(s.hash, s.opts)))
      && (p.pc.Incremented? ==> q.pc == p.pc || step == Increment(r))
  {
  }

  lemma CarriedStep(s: State, step: Step, r: nat)
    requires BoundInv(s) && Enabled(s, step) && r in s.reqs
    ensures r in Apply(s, step).reqs && CarriesFit(Apply(s, step).reqs[r], Apply(s, step))
  {
    KindsKept(s, step);
    CountEffect(s, step, r);
    VotesGrow(s, step);
    TotalFits(s);
    var q := s.reqs[r];
    assert CarriesFit(q, s) && ReqOk(q, s.opts, s.epoch);
    if q.kind.Cast? {
      TallyMonotone(s.votes, Apply(s, step).votes, s.poll, q.kind.option);
      PollTotalBound(s.votes, s.poll, q.kind.option);
      IncrementFits(s, r);
    }
  }

  /** What an increment would return is within the stored votes. */
  lemma IncrementFits(s: State, r: nat)
    requires ReqInv(s) && (forall o :: o in s.opts ==> Fits(s, o)) && r in s.reqs
    ensures Enabled(s, Increment(r)) ==>
      Get(s.hash, s.reqs[r].kind.option) + 1 <= Tally(s.votes, s.poll, s.reqs[r].kind.option)
  {
    if Enabled(s, Increment(r)) {
      var o := s.reqs[r].kind.option;
      assert ReqOk(s.reqs[r], s.opts, s.epoch);
      assert r in Pending(s, o);
      assert Fits(s, o);
      assert |Pending(s, o)| >= 1;
    }
  }

  lemma SnapshotBounded(s: State, redisFailed: bool)
    requires LogInv(s) && ReqInv(s) && Distinct(s.opts) && forall o :: o in s.opts ==> Fits(s, o)
    ensures FrameBounded(ResultsFrame(s, redisFailed), s.votes)
  {
    var f := ResultsFrame(s, redisFailed);
    TotalFits(s);
    PollTotalBound(s.votes, s.poll, "");
    forall row | row in f.rows ensures row.count <= Tally(s.votes, s.poll, row.option) {
      var i :| 0 <= i < |f.rows| && f.rows[i] == row;
      assert Fits(s, s.opts[i]);
      CountsAreTallies(s.votes, s.poll, s.opts[i]);
    }
  }

  /** A step sends at most one frame, as the last thing its request does. */
  lemma SentEffect(s: State, step: Step)
    requires Enabled(s, step)
    ensures s.votes <= Apply(s, step).votes
    ensures
      || Apply(s, step).sent == s.sent
      || (step.Serve? && Apply(s, step).sent == s.sent + [Sent(step.r, ResultsFrame(s, step.redisFailed))])
      || (step.Publish? && Apply(s, step).sent == s.sent + [Sent(step.r,
            VoteUpdate(s.poll, s.reqs[step.r].kind.option, s.reqs[step.r].pc.count, Some(s.reqs[step.r].pc.total)))])
    ensures forall r :: r in s.reqs && (s.reqs[r].pc.Done? || s.reqs[r].pc == Served) ==>
      r in Apply(s, step).reqs && Apply(s, step).reqs[r] == s.reqs[r]
  {
  }

  lemma FramesStep(s: State, step: Step)
    requires BoundInv(s) && Enabled(s, step)
    ensures forall m :: m in Apply(s, step).sent ==> FrameBounded(m.frame, Apply(s, step).votes)
  {
    var s' := Apply(s, step);
    SentEffect(s, step);
    forall m | m in s.sent ensures FrameBounded(m.frame, s'.votes) {
      FrameBoundedLater(m.frame, s.votes, s'.votes);
    }
    if s'.sent != s.sent {
      var m := s'.sent[|s.sent|];
      if step.Serve? {
        SnapshotBounded(s, step.redisFailed);
      } else {
        assert CarriesFit(s.reqs[step.r], s);
      }
      FrameBoundedLater(m.frame, s.votes, s'.votes);
      assert forall n :: n in s'.sent ==> n in s.sent || n == m;
    }
  }

  lemma BoundStep(s: State, step: Step)
    requires BoundInv(s) && Enabled(s, step) && forall o :: o in s.opts ==> CarefulAt(s, step, o)
    ensures BoundInv(Apply(s, step))
  {
    var s' := Apply(s, step);
    LogInvStep(s, step);
    ReqInvStep(s, step);
    forall o | o in s'.opts ensures Fits(s', o) {
      FitsStep(s, step, o);
    }
    forall r | r in s'.reqs ensures CarriesFit(s'.reqs[r], s') {
      if r in s.reqs {
        CarriedStep(s, step, r);
      } else {
        CountEffect(s, step, r);
      }
    }
    FramesStep(s, step);
  }

  lemma {:induction false} BoundRun(s: State, steps: seq<Step>)
    requires BoundInv(s) && CarefulRun(s, steps)
    ensures IsRun(s, steps) && BoundInv(Run(s, steps)) && Run(s, steps).poll == s.poll
    decreases |steps|
  {
    if steps != [] {
      BoundStep(s, steps[0]);
      BoundRun(Apply(s, steps[0]), steps[1..]);
    }
  }

  lemma BoundAtFirst(s: State)
    requires Init(s) && Distinct(s.opts)
    ensures BoundInv(s)
  {
    InitHolds(s);
    forall o | o in s.opts ensures Fits(s, o) {
      FitsAtFirst(s, o);
    }
  }

  /** In every careful run, with interrupted pipelines, failed writes and failed reads: whatever frames
      sent so far reach a viewer, reordered, duplicated, lost or mixed with snapshots, no displayed
      count exceeds the votes stored for its option, nor the total all votes, provided the view it
      started from, empty or zero or an earlier answer, did not. */
  lemma NoOverReporting(s: State, steps: seq<Step>, view: View, frames: seq<Frame>)
    requires Init(s) && Distinct(s.opts) && CarefulRun(s, steps) && IsRun(s, steps)
    requires forall f :: f in frames ==> exists m :: m in Run(s, steps).sent && m.frame == f
    requires ViewBounded(view, s.poll, Run(s, steps).votes)
    ensures var shown, votes := Fold(view, s.poll, frames), Run(s, steps).votes;
      && (forall row :: row in shown.rows ==> row.count <= Tally(votes, s.poll, row.option))
      && shown.total <= |votes|
  {
    BoundAtFirst(s);
    BoundRun(s, steps);
    FoldBounded(view, s.poll, frames, Run(s, steps).votes);
  }

  /** A careless read ends on a screen: after it, a snapshot shows one vote more than is stored. */
  lemma PendingReadIsShown(s: State, r: nat, p: nat, q: nat, o: string)
    requires Enabled(s, ReadCounts(r, false)) && o in s.opts && o !in s.hash && p in Pending(s, o)
    requires q in s.reqs && s.reqs[q] == Request(Results, Ready)
    ensures var s1 := Apply(s, ReadCounts(r, false));
      var s3 := Apply(Apply(s1, InitField(r, o)), Increment(p));
      && Enabled(s3, Serve(q, false)) && s3.votes == s.votes
      && Row(o, Tally(s.votes, s.poll, o) + 1) in ResultsFrame(s3, false).rows
  {
    PendingReadOverCounts(s, r, p, o);
    var s1 := Apply(s, ReadCounts(r, false));
    var s2 := Apply(s1, InitField(r, o));
    TwoSteps(s1, InitField(r, o), Increment(p));
    OthersUntouched(s, ReadCounts(r, false), q);
    OthersUntouched(s1, InitField(r, o), q);
    OthersUntouched(s2, Increment(p), q);
    var i :| 0 <= i < |s.opts| && s.opts[i] == o;
    assert ResultsFrame(Apply(s2, Increment(p)), false).rows[i] == Row(o, Tally(s.votes, s.poll, o) + 1);
  }
}
