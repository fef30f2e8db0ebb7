/**
 The conservation law between the counter hash and the durable log.

 `DriftIsInherited` holds of every run: a counter keeps the drift it was created with, whatever
 interleaving, failure or rejection follows.  `CountersConserveVotes` adds the assumptions under
 which every counter is created with drift zero.
 */
module Conservation {
  import opened Common
  import opened VoteLog
  import opened VoteProtocol
  import opened SingleVote

  // ----- what one step does to the outstanding work -----

  predicate IsOwed(q: Request, o: string, epoch: nat) {
    IsPending(q, o) || IsDropped(q, o, epoch)
  }

  /** Requests whose stored vote for `o` the current counters do not include. */
  function Owed(s: State, o: string): set<nat> {
    set r | r in s.reqs && IsOwed(s.reqs[r], o, s.epoch)
  }

  predicate Owes(s: State, r: nat, o: string) {
    r in s.reqs && IsOwed(s.reqs[r], o, s.epoch)
  }

  lemma OwedSize(s: State, o: string)
    ensures |Owed(s, o)| == |Pending(s, o)| + |Dropped(s, o)|
  {
    assert Owed(s, o) == Pending(s, o) + Dropped(s, o);
    assert Pending(s, o) !! Dropped(s, o);
  }

  lemma SetUpdateSize(a: set<nat>, b: set<nat>, r: nat)
    requires a - {r} == b - {r}
    ensures |b| == |a| + (if r in b then 1 else 0) - (if r in a then 1 else 0)
  {
    assert |a| == |a - {r}| + (if r in a then 1 else 0);
    assert |b| == |b - {r}| + (if r in b then 1 else 0);
  }

  lemma OwedElsewhere(s: State, step: Step, q: nat, o: string)
    requires Enabled(s, step) && step != LoseCounters && !(HasSubject(step) && step.r == q)
    ensures q in Owed(Apply(s, step), o) <==> q in Owed(s, o)
  {
    OthersUntouched(s, step, q);
  }

  /** Only an insert adds a stored vote, and it is one vote for the option of its request. */
  lemma TallyAfter(s: State, step: Step, o: string)
    requires Enabled(s, step)
    ensures Tally(Apply(s, step).votes, s.poll, o) == Tally(s.votes, s.poll, o)
        + (if Apply(s, step).votes != s.votes && s.reqs[step.r].kind.option == o then 1 else 0)
  {
    if Apply(s, step).votes != s.votes {
      KindsKept(s, step);
      TallyAppend(s.votes, Vote(step.r, s.poll, s.reqs[step.r].kind.option, s.reqs[step.r].kind.voter), s.poll, o);
    }
  }

  /** The outstanding work less the stored votes changes only by an increment. */
  lemma OwedBalance(s: State, step: Step, o: string)
    requires ReqInv(s) && Enabled(s, step) && step != LoseCounters
    ensures var s' := Apply(s, step);
      |Owed(s', o)| - Tally(s'.votes, s.poll, o) == |Owed(s, o)| - Tally(s.votes, s.poll, o)
        - (if step.Increment? && s.reqs[step.r].kind.option == o then 1 else 0)
  {
    var s' := Apply(s, step);
    TallyAfter(s, step, o);
    if step.Close? || step.Reopen? || step.Delete? {
      assert Owed(s', o) == Owed(s, o);
    } else {
      var r := step.r;
      forall q | q != r ensures q in Owed(s', o) <==> q in Owed(s, o) {
        OwedElsewhere(s, step, q, o);
      }
      SetUpdateSize(Owed(s, o), Owed(s', o), r);
      SubjectOwes(s, step, o);
    }
  }

  lemma SubjectOwes(s: State, step: Step, o: string)
    requires ReqInv(s) && Enabled(s, step) && HasSubject(step)
    ensures var s', r := Apply(s, step), step.r;
      var stores := s'.votes != s.votes && s.reqs[r].kind.option == o;
      var counts := step.Increment? && s.reqs[r].kind.option == o;
      && (stores ==> Owes(s', r, o) && !Owes(s, r, o))
      && (counts ==> Owes(s, r, o) && !Owes(s', r, o))
      && (!stores && !counts ==> (Owes(s', r, o) <==> Owes(s, r, o)))
  {
    if step.r in s.reqs {
      assert ReqOk(s.reqs[step.r], s.opts, s.epoch);
    }
    if step.Insert? {
      StoringOwes(s, step.r, o);
    } else if step.IncrementFails? {
      FailureOwes(s, step, o);
    }
  }

  lemma StoringOwes(s: State, r: nat, o: string)
    requires Enabled(s, Insert(r))
    ensures !Owes(s, r, o)
    ensures Owes(Apply(s, Insert(r)), r, o) <==> Apply(s, Insert(r)).votes != s.votes && s.reqs[r].kind.option == o
  {
    if !AlreadyVoted(s, s.reqs[r].kind) {
      assert |Apply(s, Insert(r)).votes| == |s.votes| + 1;
    }
  }

  /** A failed increment leaves the vote pending or given up, owed either way. */
  lemma FailureOwes(s: State, step: Step, o: string)
    requires Enabled(s, step) && step.IncrementFails?
    ensures Owes(Apply(s, step), step.r, o) <==> Owes(s, step.r, o)
  {
  }

  // ----- every run: drift is fixed when a counter is created -----

  /** What a step writes into a field of the hash that was missing, before the step's own effect. */
  function Written(s: State, step: Step, o: string): nat
    requires Enabled(s, step)
  {
    match step
    case InitCounters(r) => Get(s.reqs[r].pc.counts, o)
    case InitField(r, _) => Get(s.reqs[r].pc.counts, o)
    case _ => 0
  }

  lemma HashAfter(s: State, step: Step, o: string)
    requires Enabled(s, step) && step != LoseCounters
    ensures var s' := Apply(s, step);
      var inc := if step.Increment? && s.reqs[step.r].kind.option == o then 1 else 0;
      && (o in s.hash ==> o in s'.hash && s'.hash[o] == s.hash[o] + inc)
      && (o !in s.hash && o in s'.hash ==> s'.hash[o] == Written(s, step, o) + inc)
  {
    if step.InitCounters? {
      InitHashEffect(s.hash, s.opts, s.reqs[step.r].pc.counts);
    }
  }

  /** A counter that exists keeps its drift through every step that is not a loss. */
  lemma DriftStep(s: State, step: Step, o: string)
    requires ReqInv(s) && Enabled(s, step) && step != LoseCounters && o in s.hash
    ensures o in Apply(s, step).hash && Drift(Apply(s, step), o) == Drift(s, o)
  {
    HashAfter(s, step, o);
    OwedBalance(s, step, o);
    OwedSize(s, o);
    OwedSize(Apply(s, step), o);
  }

  /** In every run without loss a counter keeps the drift it started with, under any interleaving
      of any number of requests and any failures. */
  lemma {:induction false} DriftIsInherited(s: State, steps: seq<Step>, o: string)
    requires ReqInv(s) && IsRun(s, steps) && LoseCounters !in steps && o in s.hash
    ensures o in Run(s, steps).hash && Drift(Run(s, steps), o) == Drift(s, o)
    decreases |steps|
  {
    if steps != [] {
      DriftStep(s, steps[0], o);
      ReqInvStep(s, steps[0]);
      DriftIsInherited(Apply(s, steps[0]), steps[1..], o);
    }
  }

  /** A step that creates a counter conserves exactly when what it writes, with the work
      outstanding, is the number of stored votes. */
  lemma DriftOnCreation(s: State, step: Step, o: string)
    requires ReqInv(s) && Enabled(s, step) && o !in s.hash && o in Apply(s, step).hash
    ensures Drift(Apply(s, step), o)
         == Written(s, step, o) + |Pending(s, o)| + |Dropped(s, o)| - Tally(s.votes, s.poll, o)
  {
    HashAfter(s, step, o);
    OwedBalance(s, step, o);
    OwedSize(s, o);
    OwedSize(Apply(s, step), o);
  }

  // ----- the exact condition: what was owed when the counts were read, and what was settled since -----

  /** How much of what is owed for `o` a step settles without a stored vote less: an increment counts
      one, and a loss of the counters forgets the increments given up. */
  function Settled(s: State, step: Step, o: string): nat
    requires Enabled(s, step)
  {
    if step.Increment? && s.reqs[step.r].kind.option == o then 1
    else if step == LoseCounters then |Dropped(s, o)|
    else 0
  }

  ghost function SettledBy(s: State, steps: seq<Step>, o: string): nat
    requires IsRun(s, steps)
    decreases |steps|
  {
    if steps == [] then 0 else Settled(s, steps[0], o) + SettledBy(Apply(s, steps[0]), steps[1..], o)
  }

  lemma OwedAfterLoss(s: State, o: string)
    requires ReqInv(s)
    ensures Pending(Apply(s, LoseCounters), o) == Pending(s, o) && Dropped(Apply(s, LoseCounters), o) == {}
  {
    forall r | r in s.reqs ensures !IsDropped(s.reqs[r], o, s.epoch + 1) {
      assert ReqOk(s.reqs[r], s.opts, s.epoch);
    }
  }

  lemma OwedStep(s: State, step: Step, o: string)
    requires ReqInv(s) && Enabled(s, step)
    ensures |Owed(Apply(s, step), o)| - Tally(Apply(s, step).votes, s.poll, o)
         == |Owed(s, o)| - Tally(s.votes, s.poll, o) - Settled(s, step, o)
  {
    if step == LoseCounters {
      OwedAfterLoss(s, o);
      OwedSize(s, o);
      OwedSize(Apply(s, step), o);
    } else {
      OwedBalance(s, step, o);
    }
  }

  /** Over any run, losses included, the outstanding work less the stored votes falls by what was settled. */
  lemma {:induction false} OwedOverRun(s: State, steps: seq<Step>, o: string)
    requires ReqInv(s) && IsRun(s, steps)
    ensures ReqInv(Run(s, steps)) && Run(s, steps).opts == s.opts && Run(s, steps).poll == s.poll
    ensures |Owed(Run(s, steps), o)| - Tally(Run(s, steps).votes, s.poll, o)
         == |Owed(s, o)| - Tally(s.votes, s.poll, o) - SettledBy(s, steps, o)
    decreases |steps|
  {
    if steps != [] {
      ReqInvStep(s, steps[0]);
      OwedStep(s, steps[0], o);
      OwedOverRun(Apply(s, steps[0]), steps[1..], o);
    }
  }

  /** Without a loss nothing is settled before a counter is created: who counts a vote creates it. */
  lemma {:induction false} NothingSettled(s: State, steps: seq<Step>, o: string)
    requires ReqInv(s) && IsRun(s, steps) && LoseCounters !in steps && o !in Run(s, steps).hash
    ensures o !in s.hash && SettledBy(s, steps, o) == 0
    decreases |steps|
  {
    if steps != [] {
      ReqInvStep(s, steps[0]);
      NothingSettled(Apply(s, steps[0]), steps[1..], o);
      HashAfter(s, steps[0], o);
    }
  }

  /** A request is past the reading of the durable counts for its initialisation. */
  predicate PastReading(pc: Pc) {
    pc != Arrived && pc != Loaded && pc != Checked && pc != Absent && !pc.CountsRead?
  }

  /** As long as a request has counts in hand, they are the ones it read. */
  lemma {:induction false} CountsInHand(s: State, steps: seq<Step>, r: nat)
    requires IsRun(s, steps) && r in s.reqs && (s.reqs[r].pc.CountsRead? || PastReading(s.reqs[r].pc))
    ensures r in Run(s, steps).reqs
    ensures Run(s, steps).reqs[r].pc.CountsRead? ==> Run(s, steps).reqs[r].pc == s.reqs[r].pc
    ensures Run(s, steps).reqs[r].pc.CountsRead? || PastReading(Run(s, steps).reqs[r].pc)
    decreases |steps|
  {
    if steps != [] {
      CountsStepOn(s, steps[0], r);
      CountsInHand(Apply(s, steps[0]), steps[1..], r);
    }
  }

  lemma CountsStepOn(s: State, step: Step, r: nat)
    requires Enabled(s, step) && r in s.reqs && (s.reqs[r].pc.CountsRead? || PastReading(s.reqs[r].pc))
    ensures r in Apply(s, step).reqs
    ensures var pc := Apply(s, step).reqs[r].pc; pc == s.reqs[r].pc || PastReading(pc)
  {
  }

  /** `step` is the write of `r` that creates the counter of `o`. */
  ghost predicate Creates(t: State, step: Step, r: nat, o: string) {
    (step == InitCounters(r) || step == InitField(r, o)) && Enabled(t, step) && o in t.opts && o !in t.hash
  }

  /** Whatever happens between the reading of the durable counts and the write that creates a
      counter, losses of the counters included, the counter deviates by what was owed for its option
      when the counts were read, less what was settled since, and less the stored votes if the
      reading failed; and until the counters are lost it keeps that deviation. */
  lemma DriftIsOwedLessSettled(s: State, r: nat, failed: bool, steps: seq<Step>, step: Step, later: seq<Step>,
      o: string)
    requires ReqInv(s) && Enabled(s, ReadCounts(r, failed)) && IsRun(Apply(s, ReadCounts(r, failed)), steps)
    requires Creates(Run(Apply(s, ReadCounts(r, failed)), steps), step, r, o)
    requires IsRun(Apply(Run(Apply(s, ReadCounts(r, failed)), steps), step), later) && LoseCounters !in later
    ensures var end := Run(Apply(Run(Apply(s, ReadCounts(r, failed)), steps), step), later);
      && o in end.hash
      && Drift(end, o) == |Pending(s, o)| + |Dropped(s, o)| - SettledBy(Apply(s, ReadCounts(r, failed)), steps, o)
           - (if failed then Tally(s.votes, s.poll, o) else 0)
  {
    var s1 := Apply(s, ReadCounts(r, failed));
    var t := Run(s1, steps);
    ReqInvStep(s, ReadCounts(r, failed));
    OwedOverRun(s1, steps, o);
    CountsInHand(s1, steps, r);
    OwedStep(s, ReadCounts(r, failed), o);
    CreatedDrift(t, step, r, o);
    CountsAreTallies(s.votes, s.poll, o);
    OwedSize(s, o);
    OwedSize(t, o);
    ReqInvStep(t, step);
    DriftIsInherited(Apply(t, step), later, o);
  }

  lemma CreatedDrift(t: State, step: Step, r: nat, o: string)
    requires ReqInv(t) && Creates(t, step, r, o)
    ensures o in Apply(t, step).hash
    ensures Drift(Apply(t, step), o)
         == Get(t.reqs[r].pc.counts, o) + |Pending(t, o)| + |Dropped(t, o)| - Tally(t.votes, t.poll, o)
  {
    InitHashEffect(t.hash, t.opts, t.reqs[r].pc.counts);
    DriftOnCreation(t, step, o);
  }

  /** The law holds of a counter from its creation until the next loss exactly when what was owed for
      its option at the reading was settled by the time of the write, and, had the reading failed,
      all votes stored at the reading besides. */
  lemma CreatedCounterConservesIff(s: State, r: nat, failed: bool, steps: seq<Step>, step: Step, later: seq<Step>,
      o: string)
    requires ReqInv(s) && Enabled(s, ReadCounts(r, failed)) && IsRun(Apply(s, ReadCounts(r, failed)), steps)
    requires Creates(Run(Apply(s, ReadCounts(r, failed)), steps), step, r, o)
    requires IsRun(Apply(Run(Apply(s, ReadCounts(r, failed)), steps), step), later) && LoseCounters !in later
    ensures var end := Run(Apply(Run(Apply(s, ReadCounts(r, failed)), steps), step), later);
      && o in end.hash
      && (Drift(end, o) == 0 <==>
            |Pending(s, o)| + |Dropped(s, o)|
            == SettledBy(Apply(s, ReadCounts(r, failed)), steps, o) + (if failed then Tally(s.votes, s.poll, o) else 0))
  {
    DriftIsOwedLessSettled(s, r, failed, steps, step, later, o);
  }

  /** When the counters are not lost in between, nothing is settled: the law then holds exactly when
      nothing was owed at the reading, or, had it failed, everything stored was. */
  lemma LossFreeCreationConservesIff(s: State, r: nat, failed: bool, steps: seq<Step>, step: Step, later: seq<Step>,
      o: string)
    requires ReqInv(s) && Enabled(s, ReadCounts(r, failed)) && IsRun(Apply(s, ReadCounts(r, failed)), steps)
    requires Creates(Run(Apply(s, ReadCounts(r, failed)), steps), step, r, o)
    requires IsRun(Apply(Run(Apply(s, ReadCounts(r, failed)), steps), step), later)
    requires LoseCounters !in steps && LoseCounters !in later
    ensures var end := Run(Apply(Run(Apply(s, ReadCounts(r, failed)), steps), step), later);
      && o in end.hash
      && Drift(end, o) == |Pending(s, o)| + |Dropped(s, o)| - (if failed then Tally(s.votes, s.poll, o) else 0)
      && (Drift(end, o) == 0 <==>
            if failed then |Pending(s, o)| + |Dropped(s, o)| == Tally(s.votes, s.poll, o)
            else forall q :: q in s.reqs ==> !IsOwed(s.reqs[q], o, s.epoch))
  {
    ReqInvStep(s, ReadCounts(r, failed));
    NothingSettled(Apply(s, ReadCounts(r, failed)), steps, o);
    DriftIsOwedLessSettled(s, r, failed, steps, step, later, o);
    OwedSize(s, o);
    if q :| q in s.reqs && IsOwed(s.reqs[q], o, s.epoch) {
      assert q in Owed(s, o);
    } else {
      assert Owed(s, o) == {};
    }
  }

  // ----- runs under the assumptions: drift is zero -----

  /** A request that has asked about the counters and may still act on the answer. */
  predicate MidUpdate(q: Request) {
    q.pc.CountsRead? || (q.kind.Cast? && (q.pc == Ready || q.pc.Inserted?))
  }

  /** Counters are lost only while no request is between its counts or init check and its increment. */
  ghost predicate LossIsSafe(s: State) {
    forall r :: r in s.reqs ==> !MidUpdate(s.reqs[r])
  }

  /** The assumptions of the conservation law, step by step: the HSETNX pipeline acts as one
      operation and succeeds, the durable counts behind it can be read, and losses are safe. */
  ghost predicate Assumed(s: State, step: Step) {
    match step
    case InitField(_, _) => false
    case InitEnd(_) => false
    case ReadCounts(_, failed) => !failed
    case LoseCounters => LossIsSafe(s)
    case _ => true
  }

  ghost predicate AssumedRun(s: State, steps: seq<Step>)
    decreases |steps|
  {
    steps != [] ==> Enabled(s, steps[0]) && Assumed(s, steps[0]) && AssumedRun(Apply(s, steps[0]), steps[1..])
  }

  lemma {:induction false} AssumedRunIsRun(s: State, steps: seq<Step>)
    requires AssumedRun(s, steps)
    ensures IsRun(s, steps)
    decreases |steps|
  {
    if steps != [] {
      AssumedRunIsRun(Apply(s, steps[0]), steps[1..]);
    }
  }

  /** While the hash is absent nothing is in flight that would count a vote, and whoever holds
      durable counts holds the current ones. */
  ghost predicate IdleOk(q: Request, s: State) {
    && (q.pc.CountsRead? ==> q.pc.counts == CountsByOption(s.votes, s.poll))
    && (q.kind.Cast? ==> q.pc != Ready && !q.pc.Inserted?)
    && (q.pc.GaveUp? ==> q.pc.epoch < s.epoch)
  }

  ghost predicate Idle(s: State) {
    forall r :: r in s.reqs ==> IdleOk(s.reqs[r], s)
  }

  ghost predicate Consistent(s: State) {
    && LogInv(s) && ReqInv(s)
    && s.opts != []
    && (s.hash == map[] ==> Idle(s))
    && (s.hash != map[] ==> s.hash.Keys == Elems(s.opts) && forall o :: o in s.opts ==> Drift(s, o) == 0)
  }

  lemma IdleOwesNothing(s: State, o: string)
    requires Idle(s)
    ensures Pending(s, o) == {} && Dropped(s, o) == {}
  {
    forall r | r in s.reqs ensures !IsPending(s.reqs[r], o) && !IsDropped(s.reqs[r], o, s.epoch) {
      assert IdleOk(s.reqs[r], s);
    }
  }

  /** A rebuild is exact and happens once: an initialiser that finds the hash absent writes, for
      every option, exactly the current number of stored votes; one that finds it present changes nothing. */
  lemma RebuildIsExact(s: State, r: nat)
    requires Consistent(s) && Enabled(s, InitCounters(r))
    ensures var s' := Apply(s, InitCounters(r));
      && s'.hash.Keys == Elems(s.opts)
      && (s.hash == map[] ==> forall o :: o in s.opts ==> s'.hash[o] == Tally(s.votes, s.poll, o))
      && (s.hash != map[] ==> s'.hash == s.hash)
  {
    var c := s.reqs[r].pc.counts;
    InitHashEffect(s.hash, s.opts, c);
    if s.hash == map[] {
      assert IdleOk(s.reqs[r], s);
      forall o | o in s.opts ensures Get(c, o) == Tally(s.votes, s.poll, o) {
        CountsAreTallies(s.votes, s.poll, o);
      }
    }
  }

  /** While the hash is absent, no vote can be inserted and no counter incremented. */
  lemma AbsentHashBlocksStep(s: State, step: Step)
    requires Consistent(s) && s.hash == map[] && Enabled(s, step)
    ensures !step.Insert? && !step.Increment?
    ensures Apply(s, step).votes == s.votes
  {
  }

  lemma IdleStep(s: State, step: Step)
    requires Consistent(s) && s.hash == map[] && Enabled(s, step) && Assumed(s, step)
    requires !step.InitCounters? && step != LoseCounters
    ensures Apply(s, step).hash == map[] && Idle(Apply(s, step))
  {
    var s' := Apply(s, step);
    AbsentHashBlocksStep(s, step);
    forall r | r in s'.reqs ensures IdleOk(s'.reqs[r], s') {
      if r in s.reqs {
        assert IdleOk(s.reqs[r], s);
      }
    }
  }

  lemma LossStep(s: State)
    requires Consistent(s) && LossIsSafe(s)
    ensures Idle(Apply(s, LoseCounters))
  {
    var s' := Apply(s, LoseCounters);
    forall r | r in s'.reqs ensures IdleOk(s'.reqs[r], s') {
      assert ReqOk(s.reqs[r], s.opts, s.epoch) && !MidUpdate(s.reqs[r]);
    }
  }

  lemma ConsistentStep(s: State, step: Step)
    requires Consistent(s) && Enabled(s, step) && Assumed(s, step)
    ensures Consistent(Apply(s, step))
  {
    var s' := Apply(s, step);
    LogInvStep(s, step);
    ReqInvStep(s, step);
    if step == LoseCounters {
      LossStep(s);
    } else if s.hash == map[] {
      if !step.InitCounters? {
        IdleStep(s, step);
      } else {
        RebuildIsExact(s, step.r);
        assert s.opts[0] in s'.hash;
        forall o | o in s'.opts ensures Drift(s', o) == 0 {
          DriftOnCreation(s, step, o);
          IdleOwesNothing(s, o);
        }
      }
    } else {
      PresentStep(s, step);
    }
  }

  lemma PresentStep(s: State, step: Step)
    requires Consistent(s) && Enabled(s, step) && Assumed(s, step) && s.hash != map[] && step != LoseCounters
    ensures Apply(s, step).hash.Keys == Elems(s.opts)
    ensures forall o :: o in s.opts ==> Drift(Apply(s, step), o) == 0
  {
    var s' := Apply(s, step);
    if step.InitCounters? {
      RebuildIsExact(s, step.r);
    } else if step.Increment? {
      assert ReqOk(s.reqs[step.r], s.opts, s.epoch);
    }
    forall o | o in s.opts ensures Drift(s', o) == 0 {
      DriftStep(s, step, o);
    }
  }

  lemma {:induction false} ConsistentRun(s: State, steps: seq<Step>)
    requires Consistent(s) && AssumedRun(s, steps)
    ensures IsRun(s, steps) && Consistent(Run(s, steps))
    ensures Run(s, steps).opts == s.opts && Run(s, steps).poll == s.poll
    decreases |steps|
  {
    if steps != [] {
      ConsistentStep(s, steps[0]);
      ReqInvStep(s, steps[0]);
      ConsistentRun(Apply(s, steps[0]), steps[1..]);
    }
  }

  /** While the hash is absent the log stands still: from the loss of the counters until an
      initialiser writes them, no run stores a vote or increments a counter, whatever was in flight. */
  lemma {:induction false} AbsentHashBlocksVotes(s: State, steps: seq<Step>)
    requires Consistent(s) && s.hash == map[] && AssumedRun(s, steps)
    requires forall step :: step in steps ==> !step.InitCounters?
    ensures IsRun(s, steps) && Run(s, steps).votes == s.votes && Run(s, steps).hash == map[]
    ensures forall step :: step in steps ==> !step.Insert? && !step.Increment?
    decreases |steps|
  {
    if steps != [] {
      var step := steps[0];
      assert step in steps && forall t :: t in steps <==> t == step || t in steps[1..];
      AbsentHashBlocksStep(s, step);
      ConsistentStep(s, step);
      if step != LoseCounters {
        IdleStep(s, step);
      }
      AbsentHashBlocksVotes(Apply(s, step), steps[1..]);
    }
  }

  /** The conservation law: whenever the counters exist, for every option the counter, the votes
      stored but not yet counted and the increments given up add up to the stored votes. */
  lemma CountersConserveVotes(s: State, steps: seq<Step>)
    requires Init(s) && s.opts != [] && AssumedRun(s, steps)
    ensures IsRun(s, steps)
    ensures var s' := Run(s, steps); s'.hash != map[] ==> forall o :: o in s.opts ==>
      && o in s'.hash
      && s'.hash[o] + |Pending(s', o)| + |Dropped(s', o)| == Tally(s'.votes, s.poll, o)
  {
    InitHolds(s);
    ConsistentRun(s, steps);
  }

  /** With nothing in flight and nothing given up, Redis equals MongoDB. */
  lemma QuiescentRedisEqualsMongo(s: State, steps: seq<Step>)
    requires Init(s) && s.opts != [] && AssumedRun(s, steps)
    requires IsRun(s, steps) && Run(s, steps).hash != map[]
    requires forall r :: r in Run(s, steps).reqs ==>
      !Run(s, steps).reqs[r].pc.Inserted? && !Run(s, steps).reqs[r].pc.GaveUp?
    ensures var s' := Run(s, steps);
      && (forall o :: o in s.opts ==> o in s'.hash && s'.hash[o] == Tally(s'.votes, s.poll, o))
      && (Distinct(s.opts) ==> SumOver(s'.hash, s.opts) == |s'.votes|)
  {
    CountersConserveVotes(s, steps);
    InitHolds(s);
    LogInvRun(s, steps);
    var s' := Run(s, steps);
    forall o | o in s.opts ensures s'.hash[o] == Tally(s'.votes, s.poll, o) {
      assert Pending(s', o) == {} == Dropped(s', o);
    }
    if Distinct(s.opts) {
      VotesNameOptions(s');
      TalliesSumToVotes(s'.votes, s.poll, s.opts, s'.hash);
    }
  }

  lemma VotesNameOptions(s: State)
    requires LogInv(s) && ReqInv(s)
    ensures forall v :: v in s.votes ==> v.poll == s.poll && v.option in s.opts
  {
    forall v | v in s.votes ensures v.option in s.opts {
      assert v.id in Ids(s.votes);
      assert ReqOk(s.reqs[v.id], s.opts, s.epoch);
    }
  }
}
