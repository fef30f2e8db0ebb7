/** The service's methods and the protocol's requests are the same thing, one request at a time. */
module ServiceRefinement {
  import opened Common
  import opened Text
  import opened VoteLog
  import opened VoteProtocol
  import opened Schedules
  import opened PollValidation
  import opened PollLifecycle
  import VS = VoteService
  import VoteStore

  const NO_FAULTS := VS.Faults(false, false, false, false, false, 0, false, 0, 0, false, false)

  /** A protocol state that shows a stored poll, with the votes and counters kept under its key. */
  ghost predicate Shows(s: State, docs: map<string, PollDoc>, doc: PollDoc) {
    && Find(docs, s.poll) == Some(doc) && doc.id == s.poll
    && s.opts == PollValidation.Ids(doc.options)
    && (s.open <==> doc.status == Active) && !s.deleted
  }

  /** The stores as the service sees them. */
  function LedgerOf(s: State): VS.Ledger {
    VS.Ledger(s.votes, map[s.poll := s.hash], FramesOf(s.sent))
  }

  lemma FramesAppend(sent: seq<Sent>, m: Sent)
    ensures FramesOf(sent + [m]) == FramesOf(sent) + [m.frame]
  {
  }

  /** An undisturbed CastVote under the canonical ID decides and leaves behind what the protocol's
      whole ballot does: the same verdict, log, counters and event. */
  lemma CastVoteIsABallot(s: State, docs: map<string, PollDoc>, doc: PollDoc, b: Ballot, now: int)
    requires Shows(s, docs, doc) && (doc.expiresAt.Some? ==> now <= doc.expiresAt.value)
    requires b.voter != "" && b.option != "" && b.r !in s.reqs
    ensures var verdict := VS.Refusal(docs, s.votes, s.poll, b.option, b.voter, now, NO_FAULTS);
      var s' := AfterBallot(s, b);
      && IsRun(s, BallotSteps(s, b)) && Run(s, BallotSteps(s, b)) == s'
      && (verdict.None? <==> Accepted(s, b))
      && (verdict == Some(VS.AlreadyVoted) <==> s'.reqs[b.r].pc == Failed(Duplicate))
      && (verdict.Some? ==> LedgerOf(s') == LedgerOf(s))
      && (verdict.None? ==>
            VS.Recorded(LedgerOf(s), LedgerOf(s'), doc, Vote(b.r, s.poll, b.option, b.voter), NO_FAULTS))
  {
    VerdictOf(s, docs, doc, b, now);
    if Accepted(s, b) {
      AcceptedRun(s, b);
      BallotIsRecorded(s, doc, b);
    } else {
      RefusedRun(s, b);
    }
  }

  lemma VerdictOf(s: State, docs: map<string, PollDoc>, doc: PollDoc, b: Ballot, now: int)
    requires Shows(s, docs, doc) && (doc.expiresAt.Some? ==> now <= doc.expiresAt.value)
    requires b.voter != "" && b.option != ""
    ensures var verdict := VS.Refusal(docs, s.votes, s.poll, b.option, b.voter, now, NO_FAULTS);
      && (verdict.None? <==> Accepted(s, b))
      && (verdict == Some(VS.AlreadyVoted) <==>
            s.open && b.option in s.opts && HasVoted(s.votes, s.poll, b.voter))
  {
    assert ParseObjectID(s.poll).Some? && s.poll != "";
  }

  lemma BallotIsRecorded(s: State, doc: PollDoc, b: Ballot)
    requires doc.id == s.poll && s.opts == PollValidation.Ids(doc.options) && Accepted(s, b)
    ensures VS.Recorded(LedgerOf(s), LedgerOf(AfterBallot(s, b)), doc, Vote(b.r, s.poll, b.option, b.voter), NO_FAULTS)
  {
    assert s.opts[..|s.opts|] == s.opts;
    FramesAppend(s.sent, AfterBallot(s, b).sent[|s.sent|]);
    IsRecorded(s, AfterBallot(s, b), doc, Vote(b.r, s.poll, b.option, b.voter), NO_FAULTS);
  }

  /** What RecordVote must leave behind, in a state whose counters are kept under the vote's own key. */
  lemma IsRecorded(s: State, s': State, doc: PollDoc, vote: Vote, f: VS.Faults)
    requires s'.poll == s.poll == doc.id == vote.poll && s.opts == PollValidation.Ids(doc.options)
    requires !HasVoted(s.votes, s.poll, vote.voter)
    requires s'.votes == if f.create then s.votes else s.votes + [vote]
    requires var ensured := VS.Ensured(s.hash, s.opts, s.votes, s.poll, f);
      if !f.create && VS.Counted(f) then
        var h := HIncrBy(ensured, vote.option);
        var total := if f.total then h[vote.option] else SumOver(h, s.opts);
        && s'.hash == h
        && FramesOf(s'.sent) == FramesOf(s.sent)
             + (if f.publish then [] else [VoteUpdate(s.poll, vote.option, h[vote.option], Some(total))])
      else
        s'.hash == ensured && s'.sent == s.sent
    ensures VS.Recorded(LedgerOf(s), LedgerOf(s'), doc, vote, f)
  {
  }

  // ----- any call, with any failures -----

  ghost predicate Reaches(s: State, t: State) {
    exists steps :: IsRun(s, steps) && Run(s, steps) == t
  }

  lemma ReachesNext(s: State, t: State, step: Step)
    requires Reaches(s, t) && Enabled(t, step)
    ensures Reaches(s, Apply(t, step))
  {
    var a :| IsRun(s, a) && Run(s, a) == t;
    Cons(t, step, []);
    assert [step] + [] == [step];
    RunConcat(s, a, [step]);
  }

  lemma ReachesSelf(s: State)
    ensures Reaches(s, s)
  {
    assert IsRun(s, []) && Run(s, []) == s;
  }

  /** The state with request `r` at `pc`. */
  function At(s: State, r: nat, kind: Kind, pc: Pc): State {
    s.(reqs := s.reqs[r := Request(kind, pc)])
  }

  /** The steps that move their request and nothing else. */
  predicate IsQuiet(step: Step) {
    step.Load? || step.Reject? || step.DupCheck? || step.CheckCounters? || step.ReadCounts? || step.InitEnd?
    || step.InsertFails? || step.IncrementFails? || step.ReadTotal?
  }

  /** Where a request was before does not show in the state it is moved to. */
  lemma Overwrites(t: State, base: State, r: nat, kind: Kind, pc: Pc)
    requires r in t.reqs && t == base.(reqs := base.reqs[r := t.reqs[r]])
    ensures At(t, r, kind, pc) == At(base, r, kind, pc)
  {
  }

  lemma QuietMove(s: State, base: State, step: Step, kind: Kind, pc: Pc)
    requires IsQuiet(step) && Reaches(s, At(base, step.r, kind, pc)) && Enabled(At(base, step.r, kind, pc), step)
    ensures var next := NextPc(At(base, step.r, kind, pc), step);
      Reaches(s, At(base, step.r, kind, next))
  {
    var t := At(base, step.r, kind, pc);
    ReachesNext(s, t, step);
    QuietApply(t, step);
    Overwrites(t, base, step.r, kind, NextPc(t, step));
  }

  lemma QuietApply(t: State, step: Step)
    requires IsQuiet(step) && Enabled(t, step)
    ensures step.r in t.reqs && Apply(t, step) == At(t, step.r, t.reqs[step.r].kind, NextPc(t, step))
  {
  }

  lemma Arrives(s: State, r: nat, kind: Kind)
    requires r !in s.reqs
    ensures Reaches(s, At(s, r, kind, Arrived))
  {
    ReachesSelf(s);
    ReachesNext(s, s, Arrive(r, kind));
  }

  /** Past the checks, the request finds the counters or does not. */
  lemma Enters(s: State, r: nat, kind: Kind, failed: bool)
    requires r !in s.reqs && !s.deleted
    requires kind.Cast? ==> s.open && kind.option in s.opts && !HasVoted(s.votes, s.poll, kind.voter)
    ensures Reaches(s, At(s, r, kind, if !failed && s.hash != map[] then Ready else Absent))
  {
    Arrives(s, r, kind);
    QuietMove(s, s, Load(r), kind, Arrived);
    QuietMove(s, s, DupCheck(r), kind, Loaded);
    QuietMove(s, s, CheckCounters(r, failed), kind, Checked);
  }

  /** The first n commands of the pipeline. */
  lemma {:induction false} Pipelines(s: State, base: State, r: nat, kind: Kind, counts: map<string, nat>, n: nat)
    requires n <= |base.opts| && Reaches(s, At(base, r, kind, CountsRead(counts)))
    ensures Reaches(s, At(base.(hash := InitHash(base.hash, base.opts[..n], counts)), r, kind, CountsRead(counts)))
  {
    if n > 0 {
      Pipelines(s, base, r, kind, counts, n - 1);
      var t := At(base.(hash := InitHash(base.hash, base.opts[..n - 1], counts)), r, kind, CountsRead(counts));
      var o := base.opts[n - 1];
      ReachesNext(s, t, InitField(r, o));
      assert base.opts[..n][..n - 1] == base.opts[..n - 1];
      FieldMove(t, r, o);
    }
  }

  lemma FieldMove(t: State, r: nat, o: string)
    requires Enabled(t, InitField(r, o))
    ensures Apply(t, InitField(r, o)) == t.(hash := HSetNX(t.hash, o, Get(t.reqs[r].pc.counts, o)))
  {
    assert t.reqs[r := t.reqs[r]] == t.reqs;
  }

  /** Whatever fails in ensureRedisInitialized, the request goes on, with the counters it leaves. */
  lemma Ensures(s: State, r: nat, kind: Kind, f: VS.Faults)
    requires r !in s.reqs && !s.deleted
    requires kind.Cast? ==> s.open && kind.option in s.opts && !HasVoted(s.votes, s.poll, kind.voter)
    ensures Reaches(s, At(s.(hash := VS.Ensured(s.hash, s.opts, s.votes, s.poll, f)), r, kind, Ready))
  {
    Enters(s, r, kind, f.check);
    if f.check || s.hash == map[] {
      var counts := if f.counts then map[] else CountsByOption(s.votes, s.poll);
      var n := VoteStore.Completed(f.init, f.initDone, |s.opts|);
      QuietMove(s, s, ReadCounts(r, f.counts), kind, Absent);
      Pipelines(s, s, r, kind, counts, n);
      QuietMove(s, s.(hash := InitHash(s.hash, s.opts[..n], counts)), InitEnd(r), kind, CountsRead(counts));
    }
  }

  lemma StoreMove(t: State, r: nat, voter: string, option: string)
    requires r in t.reqs && t.reqs[r] == Request(Cast(voter, option), Ready) && !HasVoted(t.votes, t.poll, voter)
    ensures Apply(t, Insert(r))
      == At(t.(votes := t.votes + [Vote(r, t.poll, option, voter)]), r, Cast(voter, option), Inserted(0))
  {
  }

  lemma CountMove(t: State, r: nat, voter: string, option: string, k: nat)
    requires r in t.reqs && t.reqs[r] == Request(Cast(voter, option), Inserted(k))
    ensures var h := HIncrBy(t.hash, option);
      Apply(t, Increment(r)) == At(t.(hash := h), r, Cast(voter, option), Incremented(h[option]))
  {
  }

  lemma PublishMove(t: State, r: nat, voter: string, option: string, c: nat, total: nat, ok: bool)
    requires r in t.reqs && t.reqs[r] == Request(Cast(voter, option), TotalRead(c, total))
    ensures var m := Sent(r, VoteUpdate(t.poll, option, c, Some(total)));
      Apply(t, Publish(r, ok)) == At(if ok then t.(sent := t.sent + [m]) else t, r, Cast(voter, option), Done(c, total))
  {
  }

  /** The first failures of the increment, the caller still waiting. */
  lemma {:induction false} Retries(s: State, base: State, r: nat, kind: Kind, n: nat)
    requires n < MAX_INCREMENT_ATTEMPTS && Reaches(s, At(base, r, kind, Inserted(0)))
    ensures Reaches(s, At(base, r, kind, Inserted(n)))
  {
    if n > 0 {
      Retries(s, base, r, kind, n - 1);
      QuietMove(s, base, IncrementFails(r, false), kind, Inserted(n - 1));
    }
  }

  /** A vote that is not counted ends given up, after as many attempts as the caller waits for. */
  lemma GivesUp(s: State, base: State, r: nat, kind: Kind, f: VS.Faults)
    requires Reaches(s, At(base, r, kind, Inserted(0)))
    ensures Reaches(s, At(base, r, kind, GaveUp(base.epoch)))
  {
    var n := if f.cancelAfter <= 1 then 0 else if f.cancelAfter == 2 then 1 else 2;
    Retries(s, base, r, kind, n);
    QuietMove(s, base, IncrementFails(r, f.cancelAfter <= 2), kind, Inserted(n));
  }

  /** One that is counted is then published, or its event is lost. */
  lemma Counts(s: State, base: State, r: nat, voter: string, option: string, f: VS.Faults)
    requires Reaches(s, At(base, r, Cast(voter, option), Inserted(0))) && VS.Counted(f)
    ensures var h := HIncrBy(base.hash, option);
      var total := if f.total then h[option] else SumOver(h, base.opts);
      var m := Sent(r, VoteUpdate(base.poll, option, h[option], Some(total)));
      Reaches(s, At(base.(hash := h, sent := if f.publish then base.sent else base.sent + [m]), r, Cast(voter, option),
                    Done(h[option], total)))
  {
    var kind, h := Cast(voter, option), HIncrBy(base.hash, option);
    var counted := base.(hash := h);
    Retries(s, base, r, kind, f.increments);
    var t := At(base, r, kind, Inserted(f.increments));
    ReachesNext(s, t, Increment(r));
    CountMove(t, r, voter, option, f.increments);
    Overwrites(t.(hash := h), counted, r, kind, Incremented(h[option]));
    QuietMove(s, counted, ReadTotal(r, f.total), kind, Incremented(h[option]));
    Publishes(s, counted, r, voter, option, h[option], if f.total then h[option] else SumOver(h, base.opts), f);
  }

  lemma Publishes(s: State, base: State, r: nat, voter: string, option: string, c: nat, total: nat, f: VS.Faults)
    requires Reaches(s, At(base, r, Cast(voter, option), TotalRead(c, total)))
    ensures var m := Sent(r, VoteUpdate(base.poll, option, c, Some(total)));
      Reaches(s, At(base.(sent := if f.publish then base.sent else base.sent + [m]), r, Cast(voter, option),
                    Done(c, total)))
  {
    var kind := Cast(voter, option);
    var t := At(base, r, kind, TotalRead(c, total));
    ReachesNext(s, t, Publish(r, !f.publish));
    PublishMove(t, r, voter, option, c, total, !f.publish);
    var m := Sent(r, VoteUpdate(base.poll, option, c, Some(total)));
    Overwrites(t.(sent := if f.publish then t.sent else t.sent + [m]),
      base.(sent := if f.publish then base.sent else base.sent + [m]), r, kind, Done(c, total));
  }

  /** A refused request ends in an error and touches nothing. */
  lemma Refused(s: State, docs: map<string, PollDoc>, doc: PollDoc, vote: Vote, now: int, f: VS.Faults)
      returns (s': State)
    requires Shows(s, docs, doc) && vote.id !in s.reqs && vote.poll == s.poll
    requires VS.Refusal(docs, s.votes, s.poll, vote.option, vote.voter, now, f).Some?
    ensures Reaches(s, s') && LedgerOf(s') == LedgerOf(s) && vote.id in s'.reqs && s'.reqs[vote.id].pc.Failed?
    ensures VS.Refusal(docs, s.votes, s.poll, vote.option, vote.voter, now, f) == Some(VS.AlreadyVoted)
      <==> s'.reqs[vote.id].pc == Failed(Duplicate)
  {
    var r, kind := vote.id, Cast(vote.voter, vote.option);
    Arrives(s, r, kind);
    if VS.Refusal(docs, s.votes, s.poll, vote.option, vote.voter, now, f) == Some(VS.AlreadyVoted) {
      QuietMove(s, s, Load(r), kind, Arrived);
      QuietMove(s, s, DupCheck(r), kind, Loaded);
      s' := At(s, r, kind, Failed(Duplicate));
    } else {
      QuietMove(s, s, Reject(r), kind, Arrived);
      s' := At(s, r, kind, Failed(NotAccepted));
    }
  }

  /** A vote that passed the checks and is stored. */
  lemma Stores(s: State, vote: Vote, f: VS.Faults)
    requires vote.id !in s.reqs && vote.poll == s.poll && !s.deleted && !f.create
    requires s.open && vote.option in s.opts && !HasVoted(s.votes, s.poll, vote.voter)
    ensures Reaches(s, At(StoredIn(s, vote, f), vote.id, Cast(vote.voter, vote.option), Inserted(0)))
  {
    var r, voter, option := vote.id, vote.voter, vote.option;
    var kind := Cast(voter, option);
    Ensures(s, r, kind, f);
    var ready := At(s.(hash := VS.Ensured(s.hash, s.opts, s.votes, s.poll, f)), r, kind, Ready);
    ReachesNext(s, ready, Insert(r));
    StoreMove(ready, r, voter, option);
    Overwrites(ready.(votes := s.votes + [vote]), StoredIn(s, vote, f), r, kind, Inserted(0));
  }

  function StoredIn(s: State, vote: Vote, f: VS.Faults): State {
    s.(hash := VS.Ensured(s.hash, s.opts, s.votes, s.poll, f), votes := s.votes + [vote])
  }

  /** A vote that passed the checks, whatever fails afterwards, is a run of the protocol that ends
      with the stores as RecordVote leaves them. */
  lemma Records(s: State, doc: PollDoc, vote: Vote, f: VS.Faults) returns (s': State)
    requires doc.id == s.poll && s.opts == PollValidation.Ids(doc.options)
    requires vote.id !in s.reqs && vote.poll == s.poll && !s.deleted
    requires s.open && vote.option in s.opts && !HasVoted(s.votes, s.poll, vote.voter)
    ensures Reaches(s, s') && VS.Recorded(LedgerOf(s), LedgerOf(s'), doc, vote, f) && vote.id in s'.reqs
    ensures if f.create then s'.reqs[vote.id].pc == Failed(StorageError) else StoredPc(s'.reqs[vote.id].pc)
  {
    var r, kind := vote.id, Cast(vote.voter, vote.option);
    if f.create {
      var ensured := s.(hash := VS.Ensured(s.hash, s.opts, s.votes, s.poll, f));
      Ensures(s, r, kind, f);
      QuietMove(s, ensured, InsertFails(r), kind, Ready);
      s' := At(ensured, r, kind, Failed(StorageError));
    } else {
      Stores(s, vote, f);
      if VS.Counted(f) {
        s' := CountsStored(s, vote, f);
      } else {
        GivesUp(s, StoredIn(s, vote, f), r, kind, f);
        s' := At(StoredIn(s, vote, f), r, kind, GaveUp(s.epoch));
      }
    }
    IsRecorded(s, s', doc, vote, f);
  }

  lemma CountsStored(s: State, vote: Vote, f: VS.Faults) returns (s': State)
    requires Reaches(s, At(StoredIn(s, vote, f), vote.id, Cast(vote.voter, vote.option), Inserted(0))) && VS.Counted(f)
    ensures Reaches(s, s') && vote.id in s'.reqs && StoredPc(s'.reqs[vote.id].pc)
    ensures s'.poll == s.poll && s'.votes == s.votes + [vote]
    ensures var h := HIncrBy(StoredIn(s, vote, f).hash, vote.option);
      var total := if f.total then h[vote.option] else SumOver(h, s.opts);
      && s'.hash == h
      && FramesOf(s'.sent) == FramesOf(s.sent)
           + (if f.publish then [] else [VoteUpdate(s.poll, vote.option, h[vote.option], Some(total))])
  {
    var stored := StoredIn(s, vote, f);
    Counts(s, stored, vote.id, vote.voter, vote.option, f);
    var h := HIncrBy(stored.hash, vote.option);
    var total := if f.total then h[vote.option] else SumOver(h, s.opts);
    var m := Sent(vote.id, VoteUpdate(s.poll, vote.option, h[vote.option], Some(total)));
    FramesAppend(s.sent, m);
    s' := At(stored.(hash := h, sent := if f.publish then s.sent else s.sent + [m]), vote.id,
             Cast(vote.voter, vote.option), Done(h[vote.option], total));
  }

  /** Whatever fails during a CastVote under the canonical ID, from the lookup of the poll to the
      publication, what the method answers and leaves behind is a run of the protocol. */
  lemma EveryCastVoteIsARun(s: State, docs: map<string, PollDoc>, doc: PollDoc, vote: Vote, now: int, f: VS.Faults)
      returns (s': State)
    requires Shows(s, docs, doc) && vote.id !in s.reqs && vote.poll == s.poll
    ensures Reaches(s, s') && vote.id in s'.reqs
    ensures match VS.Refusal(docs, s.votes, s.poll, vote.option, vote.voter, now, f)
      case Some(e) =>
        && LedgerOf(s') == LedgerOf(s) && s'.reqs[vote.id].pc.Failed?
        && (e == VS.AlreadyVoted <==> s'.reqs[vote.id].pc == Failed(Duplicate))
      case None =>
        && VS.Recorded(LedgerOf(s), LedgerOf(s'), doc, vote, f)
        && if f.create then s'.reqs[vote.id].pc == Failed(StorageError) else StoredPc(s'.reqs[vote.id].pc)
  {
    if VS.Refusal(docs, s.votes, s.poll, vote.option, vote.voter, now, f).Some? {
      s' := Refused(s, docs, doc, vote, now, f);
    } else {
      s' := Records(s, doc, vote, f);
    }
  }

  /** The response that GetResults gives in a state of the protocol. */
  ghost predicate Answers(resp: VS.ResultsResponse, s: State, doc: PollDoc, redisFailed: bool) {
    && resp.poll == s.poll
    && resp.total == (if redisFailed then PollTotal(s.votes, s.poll) else SumOver(s.hash, s.opts))
    && VS.ReportsOn(resp, doc, if redisFailed then CountsByOption(s.votes, s.poll) else s.hash)
  }

  /** The snapshot that the WebSocket handler builds from a response. */
  function FrameOf(resp: VS.ResultsResponse): Frame {
    Snapshot(resp.poll,
      seq(|resp.results|, i requires 0 <= i < |resp.results| => Row(resp.results[i].id, resp.results[i].votes)),
      resp.total)
  }

  /** It is the snapshot the protocol sends. */
  lemma AnswerIsSnapshot(resp: VS.ResultsResponse, s: State, docs: map<string, PollDoc>, doc: PollDoc, failed: bool)
    requires Shows(s, docs, doc) && Answers(resp, s, doc, failed)
    ensures FrameOf(resp) == ResultsFrame(s, failed)
  {
    var rows := if failed then Rows(CountsByOption(s.votes, s.poll), s.opts) else Rows(s.hash, s.opts);
    assert forall i :: 0 <= i < |s.opts| ==> s.opts[i] == doc.options[i].id;
    assert FrameOf(resp).rows == rows;
  }

  /** So is a GetResults that finds the poll: the counters it ensures, and its answer sent as a
      snapshot, or no answer when neither store can be read. */
  lemma EveryGetResultsIsARun(s: State, docs: map<string, PollDoc>, doc: PollDoc, r: nat, f: VS.Faults)
      returns (s': State)
    requires Shows(s, docs, doc) && r !in s.reqs
    ensures Reaches(s, s') && s'.votes == s.votes && s'.hash == VS.Ensured(s.hash, s.opts, s.votes, s.poll, f)
    ensures s'.sent == if f.total && f.counts then s.sent else s.sent + [Sent(r, ResultsFrame(s', f.total))]
  {
    var ensured := s.(hash := VS.Ensured(s.hash, s.opts, s.votes, s.poll, f));
    Ensures(s, r, Results, f);
    s' := At(ensured, r, Results, Ready);
    if !(f.total && f.counts) {
      ReachesNext(s, s', Serve(r, f.total));
      s' := Apply(s', Serve(r, f.total));
    }
  }
}
