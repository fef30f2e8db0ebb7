/** One vote per voter and the frozen tally of a closed poll, over every run of the protocol. */
module SingleVote {
  import opened VoteLog
  import opened VoteProtocol

  function Ids(votes: seq<Vote>): set<nat> {
    set v | v in votes :: v.id
  }

  function StoredRequests(s: State): set<nat> {
    set r | r in s.reqs && s.reqs[r].kind.Cast? && StoredPc(s.reqs[r].pc)
  }

  /** Every stored vote is the vote of exactly one successful request, and conversely. */
  ghost predicate LogInv(s: State) {
    && UniqueIndex(s.votes)
    && (forall i, j :: 0 <= i < j < |s.votes| ==> s.votes[i].id != s.votes[j].id)
    && (forall v :: v in s.votes ==>
          && v.poll == s.poll
          && v.id in s.reqs
          && s.reqs[v.id].kind == Cast(v.voter, v.option))
    && Ids(s.votes) == StoredRequests(s)
  }

  /** Past loading, a vote request names an option of the poll; only vote requests store or count. */
  ghost predicate ReqOk(q: Request, opts: seq<string>, epoch: nat) {
    && (q.kind.Cast? && !q.pc.Arrived? && !q.pc.Failed? ==> q.kind.option in opts)
    && (q.kind == Results ==> !StoredPc(q.pc))
    && (q.pc.GaveUp? ==> q.pc.epoch <= epoch)
    && (q.kind.Cast? ==> q.pc != Served)
  }

  ghost predicate ReqInv(s: State) {
    forall r :: r in s.reqs ==> ReqOk(s.reqs[r], s.opts, s.epoch)
  }

  lemma ReqInvStep(s: State, step: Step)
    requires ReqInv(s) && Enabled(s, step)
    ensures ReqInv(Apply(s, step))
    ensures Apply(s, step).opts == s.opts && Apply(s, step).poll == s.poll
  {
    var s' := Apply(s, step);
    forall r | r in s'.reqs ensures ReqOk(s'.reqs[r], s'.opts, s'.epoch) {
      if r in s.reqs {
        assert ReqOk(s.reqs[r], s.opts, s.epoch);
      }
    }
  }

  lemma StoredAfter(s: State, step: Step)
    requires ReqInv(s) && Enabled(s, step)
    ensures Apply(s, step).votes == s.votes ==> StoredRequests(Apply(s, step)) == StoredRequests(s)
    ensures Apply(s, step).votes != s.votes ==>
      && step.Insert?
      && StoredRequests(Apply(s, step)) == StoredRequests(s) + {step.r}
      && step.r !in StoredRequests(s)
  {
    var s' := Apply(s, step);
    forall r ensures r in StoredRequests(s') <==> r in StoredRequests(s) || (s'.votes != s.votes && r == step.r) {
      StoredAt(s, step, r);
    }
    if s'.votes != s.votes {
      StoredAt(s, step, step.r);
    }
  }

  /** Which requests have a stored vote after a step: those that had one, and whoever just stored it. */
  lemma StoredAt(s: State, step: Step, r: nat)
    requires ReqInv(s) && Enabled(s, step)
    ensures var s' := Apply(s, step);
      && (r in StoredRequests(s') <==> r in StoredRequests(s) || (s'.votes != s.votes && r == step.r))
      && (s'.votes != s.votes ==> step.Insert? && (r == step.r ==> r !in StoredRequests(s)))
  {
    if HasSubject(step) && step.r == r {
      if r in s.reqs {
        assert ReqOk(s.reqs[r], s.opts, s.epoch);
      }
      SubjectStored(s, step);
    } else {
      OthersUntouched(s, step, r);
    }
  }

  /** A step changes at most the request it names. */
  lemma OthersUntouched(s: State, step: Step, r: nat)
    requires Enabled(s, step) && !(HasSubject(step) && step.r == r)
    ensures r in Apply(s, step).reqs <==> r in s.reqs
    ensures r in s.reqs ==> Apply(s, step).reqs[r] == s.reqs[r]
  {
  }

  lemma SubjectStored(s: State, step: Step)
    requires Enabled(s, step) && HasSubject(step)
    requires step.r in s.reqs ==> ReqOk(s.reqs[step.r], s.opts, s.epoch)
    ensures var s', r := Apply(s, step), step.r;
      && r in s'.reqs && (r in s.reqs ==> s'.reqs[r].kind == s.reqs[r].kind)
      && (s'.votes != s.votes ==>
            step.Insert? && s.reqs[r].kind.Cast? && !StoredPc(s.reqs[r].pc) && StoredPc(s'.reqs[r].pc))
      && (s'.votes == s.votes ==>
            (s'.reqs[r].kind.Cast? && StoredPc(s'.reqs[r].pc)
             <==> r in s.reqs && s.reqs[r].kind.Cast? && StoredPc(s.reqs[r].pc)))
  {
    if step.Insert? && !AlreadyVoted(s, s.reqs[step.r].kind) {
      assert |Apply(s, step).votes| == |s.votes| + 1;
    }
  }

  lemma KindsKept(s: State, step: Step)
    requires Enabled(s, step)
    ensures forall r :: r in s.reqs ==> r in Apply(s, step).reqs && Apply(s, step).reqs[r].kind == s.reqs[r].kind
    ensures Apply(s, step).votes != s.votes ==>
      && step.Insert? && s.reqs[step.r].kind.Cast?
      && !HasVoted(s.votes, s.poll, s.reqs[step.r].kind.voter)
      && Apply(s, step).votes
           == s.votes + [Vote(step.r, s.poll, s.reqs[step.r].kind.option, s.reqs[step.r].kind.voter)]
  {
  }

  lemma LogGrows(votes: seq<Vote>, v: Vote)
    requires UniqueIndex(votes) && !HasVoted(votes, v.poll, v.voter)
    ensures UniqueIndex(votes + [v])
    ensures Ids(votes + [v]) == Ids(votes) + {v.id}
    ensures forall w :: w in votes + [v] <==> w in votes || w == v
  {
    forall i | 0 <= i < |votes| ensures votes[i].poll != v.poll || votes[i].voter != v.voter {
      assert votes[i] in votes;
    }
    assert Ids(votes + [v]) == Ids(votes) + {v.id};
  }

  lemma LogInvStep(s: State, step: Step)
    requires LogInv(s) && ReqInv(s) && Enabled(s, step)
    ensures LogInv(Apply(s, step))
  {
    StoredAfter(s, step);
    KindsKept(s, step);
    ReqInvStep(s, step);
    if Apply(s, step).votes != s.votes {
      var q := s.reqs[step.r].kind;
      var v := Vote(step.r, s.poll, q.option, q.voter);
      LogGrows(s.votes, v);
      assert v.id !in Ids(s.votes);
      assert forall i :: 0 <= i < |s.votes| ==> s.votes[i].id in Ids(s.votes);
    }
  }

  lemma {:induction false} LogInvRun(s: State, steps: seq<Step>)
    requires LogInv(s) && ReqInv(s) && IsRun(s, steps)
    ensures LogInv(Run(s, steps)) && ReqInv(Run(s, steps))
    ensures Run(s, steps).opts == s.opts && Run(s, steps).poll == s.poll
    decreases |steps|
  {
    if steps != [] {
      LogInvStep(s, steps[0]);
      ReqInvStep(s, steps[0]);
      LogInvRun(Apply(s, steps[0]), steps[1..]);
    }
  }

  lemma InitHolds(s: State)
    requires Init(s)
    ensures LogInv(s) && ReqInv(s)
  {
    assert Ids(s.votes) == {} == StoredRequests(s);
  }

  /** In every reachable state the voters of stored votes are distinct, a voter has at most one
      successful request, it is the request that stored the voter's vote, and there are as many
      successes as stored votes.  No assumption on failures, losses or interleaving is needed. */
  lemma OneVotePerVoter(s: State, steps: seq<Step>)
    requires Init(s) && IsRun(s, steps)
    ensures var s' := Run(s, steps);
      && (forall i, j :: 0 <= i < j < |s'.votes| ==> s'.votes[i].voter != s'.votes[j].voter)
      && (forall r, q | r in StoredRequests(s') && q in StoredRequests(s') ::
            s'.reqs[r].kind.voter == s'.reqs[q].kind.voter ==> r == q)
      && (forall r | r in s'.reqs :: r in StoredRequests(s') <==>
            exists v :: v in s'.votes && v.id == r && s'.reqs[r].kind == Cast(v.voter, v.option))
      && |StoredRequests(s')| == |s'.votes|
  {
    InitHolds(s);
    LogInvRun(s, steps);
    var s' := Run(s, steps);
    forall r | r in StoredRequests(s')
      ensures exists v :: v in s'.votes && v.id == r && s'.reqs[r].kind == Cast(v.voter, v.option)
    {
      assert r in Ids(s'.votes);
    }
    forall v | v in s'.votes ensures v.id in StoredRequests(s') {
      assert v.id in Ids(s'.votes);
    }
    IdsCount(s'.votes);
  }

  lemma {:induction false} IdsCount(votes: seq<Vote>)
    requires forall i, j :: 0 <= i < j < |votes| ==> votes[i].id != votes[j].id
    ensures |Ids(votes)| == |votes|
  {
    if votes == [] {
      assert Ids(votes) == {};
    } else {
      var front, last := votes[..|votes| - 1], votes[|votes| - 1];
      IdsCount(front);
      assert Ids(votes) == Ids(front) + {last.id};
      assert last.id !in Ids(front);
    }
  }

  ghost predicate SenderInv(s: State) {
    forall i :: 0 <= i < |s.sent| ==>
      && s.sent[i].from in s.reqs
      && (s.reqs[s.sent[i].from].pc.Done? || s.reqs[s.sent[i].from].pc == Served)
  }

  lemma {:induction false} SenderInvRun(s: State, steps: seq<Step>)
    requires SenderInv(s) && IsRun(s, steps)
    ensures SenderInv(Run(s, steps))
    decreases |steps|
  {
    if steps != [] {
      SenderInvRun(Apply(s, steps[0]), steps[1..]);
    }
  }

  lemma {:induction false} StoredStays(s: State, steps: seq<Step>, r: nat)
    requires IsRun(s, steps) && r in s.reqs && StoredPc(s.reqs[r].pc)
    ensures r in Run(s, steps).reqs && StoredPc(Run(s, steps).reqs[r].pc)
    decreases |steps|
  {
    if steps != [] {
      StoredStays(Apply(s, steps[0]), steps[1..], r);
    }
  }

  /** Whoever incremented a counter has a stored vote. */
  lemma {:induction false} IncrementIsOfStored(s: State, steps: seq<Step>, r: nat)
    requires IsRun(s, steps) && Increment(r) in steps
    ensures r in Run(s, steps).reqs && StoredPc(Run(s, steps).reqs[r].pc)
    decreases |steps|
  {
    if steps[0] == Increment(r) {
      StoredStays(Apply(s, steps[0]), steps[1..], r);
    } else {
      IncrementIsOfStored(Apply(s, steps[0]), steps[1..], r);
    }
  }

  /** In every run a request that answered an error added neither a vote, nor an increment, nor an event. */
  lemma RejectedCallsAreInvisible(s: State, steps: seq<Step>)
    requires Init(s) && IsRun(s, steps)
    ensures var s' := Run(s, steps);
      forall r | r in s'.reqs && s'.reqs[r].pc.Failed? ::
        && (forall v :: v in s'.votes ==> v.id != r)
        && (forall m :: m in s'.sent ==> m.from != r)
        && Increment(r) !in steps
  {
    forall r | r in Run(s, steps).reqs && Run(s, steps).reqs[r].pc.Failed? ensures Increment(r) !in steps {
      if Increment(r) in steps {
        IncrementIsOfStored(s, steps, r);
      }
    }
    InitHolds(s);
    LogInvRun(s, steps);
    SenderInvRun(s, steps);
    var s' := Run(s, steps);
    forall r, v | r in s'.reqs && s'.reqs[r].pc.Failed? && v in s'.votes ensures v.id != r {
      assert v.id in Ids(s'.votes);
    }
  }

  // ----- frozen tally -----

  predicate Accepting(s: State) {
    s.open && !s.deleted
  }

  /** Vote requests that loaded the poll while it accepted votes and have not yet reached the log. */
  function Admitted(s: State): set<nat> {
    set r | r in s.reqs && s.reqs[r].kind.Cast?
         && (s.reqs[r].pc in {Loaded, Checked, Absent, Ready} || s.reqs[r].pc.CountsRead?)
  }

  function Uncounted(s: State): set<nat> {
    set r | r in s.reqs && s.reqs[r].kind.Cast? && s.reqs[r].pc.Inserted?
  }

  lemma FrozenStep(s: State, step: Step)
    requires !Accepting(s) && Enabled(s, step) && step != Reopen
    ensures var s' := Apply(s, step);
      && !Accepting(s')
      && Admitted(s') <= Admitted(s)
      && Uncounted(s') <= Uncounted(s) + Admitted(s)
      && s.votes <= s'.votes
      && (step.Insert? ==> step.r in Admitted(s))
      && (step.Increment? ==> step.r in Uncounted(s))
      && (s'.votes != s.votes ==>
            && step.Insert? && step.r in Admitted(s)
            && s'.votes == s.votes + [s'.votes[|s.votes|]] && s'.votes[|s.votes|].id == step.r)
  {
    AdmittedStep(s, step);
    UncountedStep(s, step);
  }

  lemma AdmittedStep(s: State, step: Step)
    requires !Accepting(s) && Enabled(s, step)
    ensures Admitted(Apply(s, step)) <= Admitted(s)
  {
    forall r | r in Admitted(Apply(s, step)) ensures r in Admitted(s) {
      assert r in s.reqs;
    }
  }

  lemma UncountedStep(s: State, step: Step)
    requires Enabled(s, step)
    ensures Uncounted(Apply(s, step)) <= Uncounted(s) + Admitted(s)
  {
    forall r | r in Uncounted(Apply(s, step)) ensures r in Uncounted(s) || r in Admitted(s) {
      assert r in s.reqs;
    }
  }

  /** Every vote stored after a poll stopped accepting belongs to a request admitted before that. */
  lemma {:induction false} LateVotesWereAdmitted(s: State, steps: seq<Step>)
    requires !Accepting(s) && IsRun(s, steps) && Reopen !in steps
    ensures var s' := Run(s, steps);
      && s.votes <= s'.votes
      && Admitted(s') <= Admitted(s)
      && (forall i :: |s.votes| <= i < |s'.votes| ==> s'.votes[i].id in Admitted(s))
    decreases |steps|
  {
    if steps != [] {
      var m := Apply(s, steps[0]);
      FrozenStep(s, steps[0]);
      LateVotesWereAdmitted(m, steps[1..]);
      var s' := Run(m, steps[1..]);
      assert Run(s, steps) == s';
      forall i | |s.votes| <= i < |s'.votes| ensures s'.votes[i].id in Admitted(s) {
        if i < |m.votes| {
          assert s'.votes[i] == m.votes[i];
        }
      }
    }
  }

  /** Once the admitted requests have drained, no vote is stored and no counter is incremented
      until the poll is re-opened; a counter can then change only by loss and rebuild. */
  lemma {:induction false} DrainedTallyIsFrozen(s: State, steps: seq<Step>)
    requires !Accepting(s) && IsRun(s, steps) && Reopen !in steps
    requires Admitted(s) == {} && Uncounted(s) == {} && ReqInv(s)
    ensures Run(s, steps).votes == s.votes
    ensures forall step :: step in steps ==> !step.Insert? && !step.Increment?
    ensures LoseCounters !in steps ==>
      forall o :: o in s.hash ==> o in Run(s, steps).hash && Run(s, steps).hash[o] == s.hash[o]
    decreases |steps|
  {
    if steps != [] {
      var step := steps[0];
      FrozenStep(s, step);
      if step.InitCounters? {
        InitHashEffect(s.hash, s.opts, s.reqs[step.r].pc.counts);
      }
      ReqInvStep(s, step);
      DrainedTallyIsFrozen(Apply(s, step), steps[1..]);
      assert forall t :: t in steps ==> t == step || t in steps[1..];
    }
  }
}
