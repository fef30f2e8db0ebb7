/** What becomes of the conservation law when one of its assumptions fails. */
module Necessity {
  import opened Common
  import opened VoteLog
  import opened VoteProtocol
  import opened SingleVote
  import opened Conservation
  import opened Schedules

  lemma {:induction false} SmoothRunsAreAssumed(s: State, steps: seq<Step>)
    requires IsRun(s, steps) && IsSmooth(steps)
    ensures AssumedRun(s, steps)
    decreases |steps|
  {
    if steps != [] {
      assert steps[0] in steps && forall step :: step in steps[1..] ==> step in steps;
      SmoothRunsAreAssumed(Apply(s, steps[0]), steps[1..]);
    }
  }

  /** The assumptions can all be met: from a new poll on, after any sequence of votes run one after
      the other, accepted or refused, every counter is the number of votes stored for its option. */
  lemma BallotsConserve(s: State, ballots: seq<Ballot>, o: string)
    requires Init(s) && s.opts != [] && FreshBallots(s, ballots) && o in s.opts
    ensures var s' := AfterBallots(s, ballots);
      s'.hash != map[] ==> o in s'.hash && s'.hash[o] == Tally(s'.votes, s.poll, o)
  {
    var steps := BallotsRun(s, ballots);
    SmoothRunsAreAssumed(s, steps);
    BallotsFinish(s, ballots);
    if AfterBallots(s, ballots).hash != map[] {
      QuiescentRedisEqualsMongo(s, steps);
    }
  }

  lemma {:induction false} BallotsFinish(s: State, ballots: seq<Ballot>)
    requires Init(s)
    ensures forall r :: r in AfterBallots(s, ballots).reqs ==>
      AfterBallots(s, ballots).reqs[r].pc.Done? || AfterBallots(s, ballots).reqs[r].pc.Failed?
  {
    if ballots != [] {
      BallotsFinish(s, ballots[..|ballots| - 1]);
    }
  }

  /** The counters are lost, and request `r`, having checked the voter, finds them absent. */
  ghost function FoundAbsent(s: State, r: nat): (s': State)
    requires Enabled(s, CheckCounters(r, false))
    ensures Enabled(s', ReadCounts(r, false)) && s'.opts == s.opts && s'.hash == map[]
  {
    Apply(Apply(s, LoseCounters), CheckCounters(r, false))
  }

  /** Then it rebuilds them undisturbed. */
  ghost function LoseAndRebuild(s: State, r: nat): (s': State)
    requires Enabled(s, CheckCounters(r, false))
  {
    Apply(Apply(FoundAbsent(s, r), ReadCounts(r, false)), InitCounters(r))
  }

  lemma FoundAbsentInv(s: State, r: nat)
    requires ReqInv(s) && Enabled(s, CheckCounters(r, false))
    ensures ReqInv(FoundAbsent(s, r))
  {
    ReqInvStep(s, LoseCounters);
    ReqInvStep(Apply(s, LoseCounters), CheckCounters(r, false));
  }

  /** A loss forgets the increments given up, so what is owed when the counts are read again is
      what was pending at the loss. */
  lemma RebuiltDrift(s: State, r: nat, o: string)
    requires ReqInv(s) && Enabled(s, CheckCounters(r, false)) && o in s.opts
    ensures o in LoseAndRebuild(s, r).hash
    ensures Drift(LoseAndRebuild(s, r), o) == |Pending(s, o)|
  {
    FoundAbsentInv(s, r);
    OwedWhenAbsent(s, r, o);
    DriftIsOwedLessSettled(FoundAbsent(s, r), r, false, [], InitCounters(r), [], o);
  }

  lemma OwedWhenAbsent(s: State, r: nat, o: string)
    requires ReqInv(s) && Enabled(s, CheckCounters(r, false))
    ensures Pending(FoundAbsent(s, r), o) == Pending(s, o) && Dropped(FoundAbsent(s, r), o) == {}
  {
    OwedAfterLoss(s, o);
    assert FoundAbsent(s, r).epoch == Apply(s, LoseCounters).epoch;
  }

  /** Losing the counters and then reading and rebuilding them undisturbed keeps the law exactly when
      no stored vote was waiting to be counted at the moment of the loss. */
  lemma LossConservesIffNothingPending(s: State, r: nat)
    requires ReqInv(s) && Enabled(s, CheckCounters(r, false))
    ensures forall o :: o in s.opts ==> o in LoseAndRebuild(s, r).hash
    ensures (forall o :: o in s.opts ==> Drift(LoseAndRebuild(s, r), o) == 0)
       <==> (forall q :: q in s.reqs ==> !s.reqs[q].pc.Inserted?)
  {
    forall o | o in s.opts
      ensures o in LoseAndRebuild(s, r).hash && Drift(LoseAndRebuild(s, r), o) == |Pending(s, o)|
    {
      RebuiltDrift(s, r, o);
    }
    if q :| q in s.reqs && s.reqs[q].pc.Inserted? {
      assert ReqOk(s.reqs[q], s.opts, s.epoch);
      assert q in Pending(s, s.reqs[q].kind.option);
    } else {
      forall o | o in s.opts ensures Pending(s, o) == {} {
      }
    }
  }

  /** A request that holds counts when the counters are lost, and then writes them, keeps the law of
      an option exactly when the votes stored since it read are still waiting to be counted. */
  lemma StaleWriteConservesIff(s: State, r: nat, o: string)
    requires ReqInv(s) && Enabled(s, InitCounters(r)) && o in s.opts
    ensures var s' := Apply(Apply(s, LoseCounters), InitCounters(r));
      && o in s'.hash
      && (Drift(s', o) == 0 <==> Get(s.reqs[r].pc.counts, o) + |Pending(s, o)| == Tally(s.votes, s.poll, o))
  {
    ReqInvStep(s, LoseCounters);
    OwedAfterLoss(s, o);
    CreatedDrift(Apply(s, LoseCounters), InitCounters(r), r, o);
  }

  /** An increment that finds its field missing keeps the law exactly when every stored vote for
      that option is still waiting to be counted or was given up. */
  lemma IncrementOfMissingFieldConservesIff(s: State, r: nat)
    requires ReqInv(s) && Enabled(s, Increment(r)) && s.reqs[r].kind.option !in s.hash
    ensures var o := s.reqs[r].kind.option;
      Drift(Apply(s, Increment(r)), o) == 0
      <==> |Pending(s, o)| + |Dropped(s, o)| == Tally(s.votes, s.poll, o)
  {
    DriftOnCreation(s, Increment(r), s.reqs[r].kind.option);
  }

  /** The atomic initialisation of the model is the pipeline run field by field without interruption. */
  ghost function FieldByField(s: State, r: nat, n: nat): (s': State)
    requires Enabled(s, InitCounters(r)) && n <= |s.opts|
    ensures Enabled(s', InitCounters(r)) && s' == s.(hash := InitHash(s.hash, s.opts[..n], s.reqs[r].pc.counts))
  {
    if n == 0 then s
    else
      var s' := FieldByField(s, r, n - 1);
      assert s.opts[..n][..n - 1] == s.opts[..n - 1];
      Apply(s', InitField(r, s.opts[n - 1]))
  }

  lemma PipelineRefinesAtomicInit(s: State, r: nat)
    requires Enabled(s, InitCounters(r))
    ensures Apply(FieldByField(s, r, |s.opts|), InitEnd(r)) == Apply(s, InitCounters(r))
  {
    assert s.opts[..|s.opts|] == s.opts;
    EndOfPipeline(s, r, InitHash(s.hash, s.opts, s.reqs[r].pc.counts));
    var done := Apply(s, InitCounters(r));
    assert done.reqs == s.reqs[r := Request(s.reqs[r].kind, Ready)];
  }

  lemma EndOfPipeline(s: State, r: nat, hash: map<string, nat>)
    requires Enabled(s, InitEnd(r))
    ensures Apply(s.(hash := hash), InitEnd(r)) == s.(hash := hash, reqs := s.reqs[r := Request(s.reqs[r].kind, Ready)])
  {
  }

  // ----- concrete runs -----

  const POLL := "p"
  const YES := "a"
  const NO := "b"

  ghost const START: State :=
    State(POLL, [YES, NO], [], map[], 0, map[], true, false, [])

  const VOTE := Cast("u", NO)
  const STORED := [Vote(1, POLL, NO, "u")]

  lemma OneVoteStored()
    ensures Tally(STORED, POLL, NO) == 1 && Get(CountsByOption(STORED, POLL), NO) == 1
    ensures YES != NO
  {
    TallyAppend([], STORED[0], POLL, NO);
    assert [] + STORED == STORED;
    CountsAreTallies(STORED, POLL, NO);
  }

  // A reader begins the pipeline and is interrupted after the first field.

  ghost const HALF_INIT: State := START.(
    hash := map[YES := 0],
    reqs := map[0 := Request(Results, CountsRead(map[])), 2 := Request(Results, Absent)])

  function HalfInitThen(rest: seq<Step>): seq<Step> {
    Opening(0, Results, Opening(2, Results, [ReadCounts(0, false)] + ([InitField(0, YES)] + rest)))
  }

  lemma HalfInitRun(rest: seq<Step>)
    requires IsRun(HALF_INIT, rest)
    ensures IsRun(START, HalfInitThen(rest)) && Run(START, HalfInitThen(rest)) == Run(HALF_INIT, rest)
  {
    var s0 := Opened(START, 0, Results);
    var s1 := Opened(s0, 2, Results);
    var s2 := Apply(s1, ReadCounts(0, false));
    assert CountsByOption([], POLL) == map[];
    assert Apply(s2, InitField(0, YES)).reqs == HALF_INIT.reqs;
    Cons(s2, InitField(0, YES), rest);
    Cons(s1, ReadCounts(0, false), [InitField(0, YES)] + rest);
    OpeningThen(s0, 2, Results, [ReadCounts(0, false)] + ([InitField(0, YES)] + rest));
    OpeningThen(START, 0, Results, Opening(2, Results, [ReadCounts(0, false)] + ([InitField(0, YES)] + rest)));
  }

  const OVERLAP: seq<Step> := [ReadCounts(2, false)] + ([InitField(2, NO)] + [Increment(1)])

  /** The one vote is stored by request 1 and still owed. */
  ghost predicate OneOwed(s: State) {
    && s.poll == POLL && s.votes == STORED && s.opts == [YES, NO] && NO !in s.hash
    && 1 in s.reqs && s.reqs[1] == Request(VOTE, Inserted(0))
    && (forall q :: q in s.reqs && q != 1 ==> s.reqs[q].kind == Results && s.reqs[q].pc in {Absent, CountsRead(map[])})
  }

  lemma OwedOnce(s: State)
    requires OneOwed(s)
    ensures ReqInv(s) && |Pending(s, NO)| + |Dropped(s, NO)| == 1
  {
    assert s.opts[1] == NO;
    assert Pending(s, NO) == {1} && Dropped(s, NO) == {};
  }

  /** The state once reader 2 has fetched the counts. */
  ghost function Reread(s: State): State {
    s.(reqs := s.reqs[2 := Request(Results, CountsRead(CountsByOption(STORED, POLL)))])
  }

  lemma RereadStep(s: State)
    requires OneOwed(s) && Enabled(s, ReadCounts(2, false))
    ensures Apply(s, ReadCounts(2, false)) == Reread(s)
  {
  }

  lemma FieldStep(s: State)
    requires OneOwed(s)
    ensures Creates(Reread(s), InitField(2, NO), 2, NO)
    ensures Apply(Reread(s), InitField(2, NO)) == Reread(s).(hash := s.hash[NO := 1])
  {
    OneVoteStored();
    assert s.opts[1] == NO;
    assert Reread(s).reqs[2 := Reread(s).reqs[2]] == Reread(s).reqs;
  }

  lemma CountersStep(s: State)
    requires OneOwed(s)
    ensures Creates(Reread(s), InitCounters(2), 2, NO)
    ensures var h := InitHash(s.hash, s.opts, CountsByOption(STORED, POLL));
      NO in h && Apply(Reread(s), InitCounters(2)) == s.(hash := h, reqs := s.reqs[2 := Request(Results, Ready)])
  {
    InitHashEffect(s.hash, s.opts, CountsByOption(STORED, POLL));
    assert s.opts[1] == NO;
    assert Reread(s).reqs[2 := Request(Results, Ready)] == s.reqs[2 := Request(Results, Ready)];
  }

  lemma CountingStep(s: State, s2: State)
    requires OneOwed(s) && 2 in s2.reqs && NO in s2.hash
    requires s2 == s.(hash := s2.hash, reqs := s.reqs[2 := s2.reqs[2]]) && s2.reqs[2].kind == Results
    ensures IsRun(s2, [Increment(1)])
    ensures var s3 := Run(s2, [Increment(1)]);
      && s3.votes == STORED && s3.poll == POLL && NO in s3.hash && s3.hash == s2.hash[NO := s3.hash[NO]]
      && forall q :: q in s3.reqs ==> !IsOwed(s3.reqs[q], NO, s3.epoch)
  {
    Cons(s2, Increment(1), []);
    assert [Increment(1)] + [] == [Increment(1)];
  }

  /** A second reader fetches the counts, creates the counter, and the vote's own increment follows:
      the counter is one above the stored votes, which is what was owed when the counts were read. */
  lemma RereadThenIncrement(s: State, create: Step)
    requires OneOwed(s) && Enabled(s, ReadCounts(2, false))
    requires create == InitField(2, NO) || create == InitCounters(2)
    ensures var steps := [ReadCounts(2, false)] + ([create] + [Increment(1)]);
      && IsRun(s, steps) && Run(s, steps).votes == STORED
      && NO in Run(s, steps).hash && Run(s, steps).hash[NO] == 2
      && (create.InitField? ==> Run(s, steps).hash == s.hash[NO := 2])
  {
    RereadStep(s);
    if create.InitField? { FieldStep(s); } else { CountersStep(s); }
    var s2 := Apply(Reread(s), create);
    CountingStep(s, s2);
    CountedTwice(s, create, s2);
    Cons(Reread(s), create, [Increment(1)]);
    Cons(s, ReadCounts(2, false), [create] + [Increment(1)]);
  }

  lemma CountedTwice(s: State, create: Step, s2: State)
    requires OneOwed(s) && Enabled(s, ReadCounts(2, false)) && Apply(s, ReadCounts(2, false)) == Reread(s)
    requires Creates(Reread(s), create, 2, NO) && s2 == Apply(Reread(s), create) && IsRun(s2, [Increment(1)])
    requires Run(s2, [Increment(1)]).votes == STORED && Run(s2, [Increment(1)]).poll == POLL
    requires forall q :: q in Run(s2, [Increment(1)]).reqs ==>
      !IsOwed(Run(s2, [Increment(1)]).reqs[q], NO, Run(s2, [Increment(1)]).epoch)
    ensures NO in Run(s2, [Increment(1)]).hash && Run(s2, [Increment(1)]).hash[NO] == 2
  {
    OwedOnce(s);
    LossFreeCreationConservesIff(s, 2, false, [], create, [Increment(1)], NO);
    NothingLeft(Run(s2, [Increment(1)]));
  }

  lemma NothingLeft(s: State)
    requires s.votes == STORED && s.poll == POLL && NO in s.hash && Drift(s, NO) == 1
    requires forall q :: q in s.reqs ==> !IsOwed(s.reqs[q], NO, s.epoch)
    ensures s.hash[NO] == 2
  {
    OneVoteStored();
    assert Pending(s, NO) == {} == Dropped(s, NO);
  }

  const INTERLEAVED_PIPELINE: seq<Step> := HalfInitThen(Opening(1, VOTE, [Insert(1)] + OVERLAP))

  /** A reader that begins the pipeline lets a vote through before the field of its option exists;
      a second reader then copies that vote into the counter, and the vote's own increment counts
      it again: one stored vote, a counter of two, though every read succeeds and nothing is lost. */
  lemma InterleavedPipelineDoubleCounts()
    ensures IsRun(START, INTERLEAVED_PIPELINE)
    ensures var s := Run(START, INTERLEAVED_PIPELINE);
      s.hash == map[YES := 0, NO := 2] && Tally(s.votes, POLL, NO) == 1
  {
    OneVoteStored();
    RereadThenIncrement(SlippedThrough(), InitField(2, NO));
    VoteSlipsThrough(OVERLAP);
    HalfInitRun(Opening(1, VOTE, [Insert(1)] + OVERLAP));
  }

  ghost function SlippedThrough(): State {
    HALF_INIT.(votes := STORED, reqs := HALF_INIT.reqs[1 := Request(VOTE, Inserted(0))])
  }

  /** With one field of the hash in place, a vote takes the counters for initialised. */
  lemma VoteSlipsThrough(rest: seq<Step>)
    requires IsRun(SlippedThrough(), rest)
    ensures IsRun(HALF_INIT, Opening(1, VOTE, [Insert(1)] + rest))
    ensures Run(HALF_INIT, Opening(1, VOTE, [Insert(1)] + rest)) == Run(SlippedThrough(), rest)
  {
    assert YES in HALF_INIT.hash;
    var s3 := Opened(HALF_INIT, 1, VOTE);
    InsertApplies(s3, SlippedThrough());
    Cons(s3, Insert(1), rest);
    OpeningThen(HALF_INIT, 1, VOTE, [Insert(1)] + rest);
  }

  lemma InsertApplies(s3: State, s4: State)
    requires s3.poll == POLL && s3.votes == [] && 1 in s3.reqs && s3.reqs[1] == Request(VOTE, Ready)
    requires s4 == s3.(votes := STORED, reqs := s3.reqs[1 := Request(VOTE, Inserted(0))])
    ensures Enabled(s3, Insert(1)) && Apply(s3, Insert(1)) == s4
  {
    assert [] + STORED == STORED;
  }

  // The write of an initialisation fails, and the failure is ignored.

  ghost const UNCOUNTED: State :=
    START.(votes := STORED, reqs := map[1 := Request(VOTE, Inserted(0))])

  function IgnoredFailureThen(rest: seq<Step>): seq<Step> {
    Opening(1, VOTE, [ReadCounts(1, false)] + ([InitEnd(1)] + ([Insert(1)] + rest)))
  }

  lemma IgnoredFailureRun(rest: seq<Step>)
    requires IsRun(UNCOUNTED, rest)
    ensures IsRun(START, IgnoredFailureThen(rest)) && Run(START, IgnoredFailureThen(rest)) == Run(UNCOUNTED, rest)
  {
    var s1 := Opened(START, 1, VOTE);
    var s2 := Apply(s1, ReadCounts(1, false));
    var s3 := Apply(s2, InitEnd(1));
    assert Apply(s3, Insert(1)).reqs == UNCOUNTED.reqs && Apply(s3, Insert(1)).votes == UNCOUNTED.votes;
    Cons(s3, Insert(1), rest);
    Cons(s2, InitEnd(1), [Insert(1)] + rest);
    Cons(s1, ReadCounts(1, false), [InitEnd(1)] + ([Insert(1)] + rest));
    OpeningThen(START, 1, VOTE, [ReadCounts(1, false)] + ([InitEnd(1)] + ([Insert(1)] + rest)));
  }

  const LATE_REBUILD: seq<Step> := [ReadCounts(2, false)] + ([InitCounters(2)] + [Increment(1)])

  /** A vote stored behind a failed initialisation is copied into the counter by the next
      request and then counted again by its own increment. */
  lemma IgnoredInitFailureDoubleCounts()
    ensures IsRun(START, IgnoredFailureThen(Opening(2, Results, LATE_REBUILD)))
    ensures var s := Run(START, IgnoredFailureThen(Opening(2, Results, LATE_REBUILD)));
      NO in s.hash && s.hash[NO] == 2 && Tally(s.votes, POLL, NO) == 1
  {
    OneVoteStored();
    RereadThenIncrement(Opened(UNCOUNTED, 2, Results), InitCounters(2));
    OpeningThen(UNCOUNTED, 2, Results, LATE_REBUILD);
    IgnoredFailureRun(Opening(2, Results, LATE_REBUILD));
  }

  // A reader holds the counts of an empty log while a vote is counted and the counters are lost.

  ghost const EMPTY_READ: State := START.(reqs := map[0 := Request(Results, CountsRead(map[]))])

  ghost const VOTE_COUNTED: State := START.(votes := STORED, hash := map[YES := 0, NO := 1],
    reqs := map[0 := Request(Results, CountsRead(map[])), 1 := Request(VOTE, Incremented(1))])

  const LOSS_AND_WRITE: seq<Step> := [LoseCounters] + ([InitCounters(0)] + [])

  const COUNTED_VOTE: seq<Step> :=
    [ReadCounts(1, false)] + ([InitCounters(1)] + ([Insert(1)] + ([Increment(1)] + LOSS_AND_WRITE)))

  const STALE_COUNTS: seq<Step> := Opening(0, Results, [ReadCounts(0, false)] + Opening(1, VOTE, COUNTED_VOTE))

  lemma EmptyReadRun(rest: seq<Step>)
    requires IsRun(EMPTY_READ, rest)
    ensures IsRun(START, Opening(0, Results, [ReadCounts(0, false)] + rest))
    ensures Run(START, Opening(0, Results, [ReadCounts(0, false)] + rest)) == Run(EMPTY_READ, rest)
  {
    var s0 := Opened(START, 0, Results);
    assert CountsByOption([], POLL) == map[];
    assert Apply(s0, ReadCounts(0, false)).reqs == EMPTY_READ.reqs;
    Cons(s0, ReadCounts(0, false), rest);
    OpeningThen(START, 0, Results, [ReadCounts(0, false)] + rest);
  }

  lemma CountedVoteRun()
    requires IsRun(VOTE_COUNTED, LOSS_AND_WRITE)
    ensures IsRun(EMPTY_READ, Opening(1, VOTE, COUNTED_VOTE))
    ensures Run(EMPTY_READ, Opening(1, VOTE, COUNTED_VOTE)) == Run(VOTE_COUNTED, LOSS_AND_WRITE)
  {
    var ready := EMPTY_READ.(hash := Rebuilt(EMPTY_READ), reqs := EMPTY_READ.reqs[1 := Request(VOTE, Ready)]);
    CountedFromReady(ready);
    StoredRun(ready, 1, "u", NO, LOSS_AND_WRITE);
    RebuildThen(EMPTY_READ, 1, VOTE, [Insert(1)] + ([Increment(1)] + LOSS_AND_WRITE));
    OpeningThen(EMPTY_READ, 1, VOTE, COUNTED_VOTE);
  }

  lemma CountedFromReady(ready: State)
    requires ready == EMPTY_READ.(hash := Rebuilt(EMPTY_READ), reqs := EMPTY_READ.reqs[1 := Request(VOTE, Ready)])
    ensures StoredAndCounted(ready, 1, "u", NO) == VOTE_COUNTED
  {
    RebuiltFromNothing();
    assert [] + STORED == STORED;
    assert HIncrBy(ready.hash, NO) == map[YES := 0, NO := 1];
    assert ready.reqs[1 := Request(VOTE, Incremented(1))] == VOTE_COUNTED.reqs;
  }

  lemma RebuiltFromNothing()
    ensures Rebuilt(EMPTY_READ) == map[YES := 0, NO := 0] && YES != NO
  {
    OneVoteStored();
    InitHashEffect(map[], [YES, NO], CountsByOption([], POLL));
    assert [YES, NO][0] == YES && [YES, NO][1] == NO;
  }

  /** Nothing was owed when the counts were read, and nobody was waiting to be counted at the loss;
      but the write is older than the counted vote, and the counter stays one short. */
  lemma StaleCountsUndercount()
    ensures IsRun(START, STALE_COUNTS)
    ensures var s := Run(START, STALE_COUNTS);
      NO in s.hash && s.hash[NO] == 0 && Tally(s.votes, POLL, NO) == 1
  {
    OneVoteStored();
    LossAndWriteRun();
    CountedVoteRun();
    EmptyReadRun(Opening(1, VOTE, COUNTED_VOTE));
  }

  lemma LossAndWriteRun()
    ensures IsRun(VOTE_COUNTED, LOSS_AND_WRITE)
    ensures var s := Run(VOTE_COUNTED, LOSS_AND_WRITE); s.votes == STORED && NO in s.hash && s.hash[NO] == 0
  {
    var lost := Apply(VOTE_COUNTED, LoseCounters);
    assert [YES, NO][1] == NO;
    InitHashEffect(map[], [YES, NO], map[]);
    Cons(lost, InitCounters(0), []);
    Cons(VOTE_COUNTED, LoseCounters, [InitCounters(0)] + []);
  }
}
