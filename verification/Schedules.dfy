/** Schedules that run one request at a time, as runs of the protocol. */
module Schedules {
  import opened Common
  import opened VoteLog
  import opened VoteProtocol
  import opened Viewer

  lemma Cons(s: State, step: Step, rest: seq<Step>)
    requires Enabled(s, step) && IsRun(Apply(s, step), rest)
    ensures IsRun(s, [step] + rest) && Run(s, [step] + rest) == Run(Apply(s, step), rest)
  {
    assert ([step] + rest)[1..] == rest;
  }

  function Opened(s: State, r: nat, kind: Kind): State {
    s.(reqs := s.reqs[r := Request(kind, if s.hash == map[] then Absent else Ready)])
  }

  /** The four steps that take an accepted request past its check of the counters, then `rest`. */
  function Opening(r: nat, kind: Kind, rest: seq<Step>): seq<Step> {
    [Arrive(r, kind)] + ([Load(r)] + ([DupCheck(r)] + ([CheckCounters(r, false)] + rest)))
  }

  lemma OpeningThen(s: State, r: nat, kind: Kind, rest: seq<Step>)
    requires r !in s.reqs && !s.deleted
    requires kind.Cast? ==> s.open && kind.option in s.opts && !HasVoted(s.votes, s.poll, kind.voter)
    requires IsRun(Opened(s, r, kind), rest)
    ensures IsRun(s, Opening(r, kind, rest))
    ensures Run(s, Opening(r, kind, rest)) == Run(Opened(s, r, kind), rest)
  {
    var s2 := s.(reqs := s.reqs[r := Request(kind, Loaded)]);
    LoadedThenOpened(s2, s, r, kind, rest);
    ArriveThenLoaded(s, r, kind, [DupCheck(r)] + ([CheckCounters(r, false)] + rest));
  }

  lemma ArriveThenLoaded(s: State, r: nat, kind: Kind, rest: seq<Step>)
    requires r !in s.reqs && !s.deleted && (kind.Cast? ==> s.open && kind.option in s.opts)
    requires IsRun(s.(reqs := s.reqs[r := Request(kind, Loaded)]), rest)
    ensures IsRun(s, [Arrive(r, kind)] + ([Load(r)] + rest))
    ensures Run(s, [Arrive(r, kind)] + ([Load(r)] + rest)) == Run(s.(reqs := s.reqs[r := Request(kind, Loaded)]), rest)
  {
    var s1 := s.(reqs := s.reqs[r := Request(kind, Arrived)]);
    var s2 := s.(reqs := s.reqs[r := Request(kind, Loaded)]);
    assert Apply(s, Arrive(r, kind)) == s1;
    assert Apply(s1, Load(r)) == s2 by {
      assert s1.reqs[r := Request(kind, Loaded)] == s2.reqs;
    }
    Cons(s1, Load(r), rest);
    Cons(s, Arrive(r, kind), [Load(r)] + rest);
  }

  lemma LoadedThenOpened(s2: State, s: State, r: nat, kind: Kind, rest: seq<Step>)
    requires s2 == s.(reqs := s.reqs[r := Request(kind, Loaded)])
    requires kind.Cast? ==> !HasVoted(s.votes, s.poll, kind.voter)
    requires IsRun(Opened(s, r, kind), rest)
    ensures IsRun(s2, [DupCheck(r)] + ([CheckCounters(r, false)] + rest))
    ensures Run(s2, [DupCheck(r)] + ([CheckCounters(r, false)] + rest)) == Run(Opened(s, r, kind), rest)
  {
    var s3 := s.(reqs := s.reqs[r := Request(kind, Checked)]);
    assert Apply(s2, DupCheck(r)) == s3 by {
      assert s2.reqs[r := Request(kind, Checked)] == s3.reqs;
    }
    assert Apply(s3, CheckCounters(r, false)) == Opened(s, r, kind) by {
      assert s3.reqs[r := Opened(s, r, kind).reqs[r]] == Opened(s, r, kind).reqs;
    }
    Cons(s3, CheckCounters(r, false), rest);
    Cons(s2, DupCheck(r), [CheckCounters(r, false)] + rest);
  }

  lemma {:induction false} RunConcat(s: State, a: seq<Step>, b: seq<Step>)
    requires IsRun(s, a) && IsRun(Run(s, a), b)
    ensures IsRun(s, a + b) && Run(s, a + b) == Run(Run(s, a), b)
    decreases |a|
  {
    if a == [] {
      assert a + b == b;
    } else {
      assert (a + b)[1..] == a[1..] + b;
      RunConcat(Apply(s, a[0]), a[1..], b);
    }
  }

  // ----- one ballot from arrival to answer -----

  datatype Ballot = Ballot(r: nat, voter: string, option: string)

  function Tail(r: nat): seq<Step> {
    [Insert(r)] + ([Increment(r)] + ([ReadTotal(r, false)] + ([Publish(r, true)] + [])))
  }

  ghost predicate Accepted(s: State, b: Ballot) {
    s.open && !s.deleted && b.option in s.opts && !HasVoted(s.votes, s.poll, b.voter)
  }

  /** The steps of an undisturbed ballot whose store calls all succeed. */
  ghost function BallotSteps(s: State, b: Ballot): seq<Step> {
    if Accepted(s, b) then
      Opening(b.r, Cast(b.voter, b.option),
        if s.hash == map[] then [ReadCounts(b.r, false)] + ([InitCounters(b.r)] + Tail(b.r)) else Tail(b.r))
    else if !s.open || s.deleted || b.option !in s.opts then
      [Arrive(b.r, Cast(b.voter, b.option))] + ([Reject(b.r)] + [])
    else [Arrive(b.r, Cast(b.voter, b.option))] + ([Load(b.r)] + ([DupCheck(b.r)] + []))
  }

  function Rebuilt(s: State): map<string, nat> {
    if s.hash == map[] then InitHash(s.hash, s.opts, CountsByOption(s.votes, s.poll)) else s.hash
  }

  /** What it leaves behind. */
  ghost function AfterBallot(s: State, b: Ballot): State {
    var kind := Cast(b.voter, b.option);
    if Accepted(s, b) then
      var h := HIncrBy(Rebuilt(s), b.option);
      var c, t := h[b.option], SumOver(h, s.opts);
      s.(votes := s.votes + [Vote(b.r, s.poll, b.option, b.voter)],
         hash := h,
         reqs := s.reqs[b.r := Request(kind, Done(c, t))],
         sent := s.sent + [Sent(b.r, VoteUpdate(s.poll, b.option, c, Some(t)))])
    else if !s.open || s.deleted || b.option !in s.opts then
      s.(reqs := s.reqs[b.r := Request(kind, Failed(NotAccepted))])
    else
      s.(reqs := s.reqs[b.r := Request(kind, Failed(Duplicate))])
  }

  lemma CountedRun(s: State, r: nat, voter: string, option: string, c: nat)
    requires r in s.reqs && s.reqs[r] == Request(Cast(voter, option), Incremented(c))
    ensures var t := SumOver(s.hash, s.opts);
      var steps := [ReadTotal(r, false)] + ([Publish(r, true)] + []);
      && IsRun(s, steps)
      && Run(s, steps) == s.(
           reqs := s.reqs[r := Request(Cast(voter, option), Done(c, t))],
           sent := s.sent + [Sent(r, VoteUpdate(s.poll, option, c, Some(t)))])
  {
    var t := SumOver(s.hash, s.opts);
    var s1 := s.(reqs := s.reqs[r := Request(Cast(voter, option), TotalRead(c, t))]);
    var s2 := s.(reqs := s.reqs[r := Request(Cast(voter, option), Done(c, t))],
                 sent := s.sent + [Sent(r, VoteUpdate(s.poll, option, c, Some(t)))]);
    assert Apply(s, ReadTotal(r, false)) == s1;
    assert Apply(s1, Publish(r, true)) == s2 by {
      assert s1.reqs[r := s2.reqs[r]] == s2.reqs;
    }
    Cons(s1, Publish(r, true), []);
    Cons(s, ReadTotal(r, false), [Publish(r, true)] + []);
  }

  lemma StoredRun(s: State, r: nat, voter: string, option: string, rest: seq<Step>)
    requires r in s.reqs && s.reqs[r] == Request(Cast(voter, option), Ready) && !HasVoted(s.votes, s.poll, voter)
    requires IsRun(StoredAndCounted(s, r, voter, option), rest)
    ensures IsRun(s, [Insert(r)] + ([Increment(r)] + rest))
    ensures Run(s, [Insert(r)] + ([Increment(r)] + rest)) == Run(StoredAndCounted(s, r, voter, option), rest)
  {
    var s1 := s.(votes := s.votes + [Vote(r, s.poll, option, voter)],
                 reqs := s.reqs[r := Request(Cast(voter, option), Inserted(0))]);
    var s2 := StoredAndCounted(s, r, voter, option);
    assert Apply(s, Insert(r)) == s1;
    assert Apply(s1, Increment(r)) == s2 by {
      assert s1.reqs[r := s2.reqs[r]] == s2.reqs;
    }
    Cons(s1, Increment(r), rest);
    Cons(s, Insert(r), [Increment(r)] + rest);
  }

  function StoredAndCounted(s: State, r: nat, voter: string, option: string): State {
    var h := HIncrBy(s.hash, option);
    s.(votes := s.votes + [Vote(r, s.poll, option, voter)], hash := h,
       reqs := s.reqs[r := Request(Cast(voter, option), Incremented(h[option]))])
  }

  /** Where the tail of a ballot ends. */
  function Tailed(s: State, r: nat, voter: string, option: string): State {
    var h := HIncrBy(s.hash, option);
    var c, t := h[option], SumOver(h, s.opts);
    s.(votes := s.votes + [Vote(r, s.poll, option, voter)],
       hash := h,
       reqs := s.reqs[r := Request(Cast(voter, option), Done(c, t))],
       sent := s.sent + [Sent(r, VoteUpdate(s.poll, option, c, Some(t)))])
  }

  lemma TailedFromCounted(s: State, r: nat, voter: string, option: string)
    ensures var s2 := StoredAndCounted(s, r, voter, option);
      var c, t := s2.hash[option], SumOver(s2.hash, s2.opts);
      s2.(reqs := s2.reqs[r := Request(Cast(voter, option), Done(c, t))],
          sent := s2.sent + [Sent(r, VoteUpdate(s2.poll, option, c, Some(t)))]) == Tailed(s, r, voter, option)
  {
  }

  lemma TailRun(s: State, r: nat, voter: string, option: string)
    requires r in s.reqs && s.reqs[r] == Request(Cast(voter, option), Ready) && !HasVoted(s.votes, s.poll, voter)
    ensures IsRun(s, Tail(r)) && Run(s, Tail(r)) == Tailed(s, r, voter, option)
  {
    var s2 := StoredAndCounted(s, r, voter, option);
    CountedRun(s2, r, voter, option, s2.hash[option]);
    TailedFromCounted(s, r, voter, option);
    StoredRun(s, r, voter, option, [ReadTotal(r, false)] + ([Publish(r, true)] + []));
  }

  lemma RebuildThen(s: State, r: nat, kind: Kind, rest: seq<Step>)
    requires r !in s.reqs && s.hash == map[]
    requires IsRun(s.(hash := Rebuilt(s), reqs := s.reqs[r := Request(kind, Ready)]), rest)
    ensures IsRun(Opened(s, r, kind), [ReadCounts(r, false)] + ([InitCounters(r)] + rest))
    ensures Run(Opened(s, r, kind), [ReadCounts(r, false)] + ([InitCounters(r)] + rest))
         == Run(s.(hash := Rebuilt(s), reqs := s.reqs[r := Request(kind, Ready)]), rest)
  {
    var s1 := Opened(s, r, kind);
    var s2 := s.(reqs := s.reqs[r := Request(kind, CountsRead(CountsByOption(s.votes, s.poll)))]);
    var s3 := s.(hash := Rebuilt(s), reqs := s.reqs[r := Request(kind, Ready)]);
    assert Apply(s1, ReadCounts(r, false)) == s2 by {
      assert s1.reqs[r := s2.reqs[r]] == s2.reqs;
    }
    assert Apply(s2, InitCounters(r)) == s3 by {
      assert s2.reqs[r := s3.reqs[r]] == s3.reqs;
    }
    Cons(s2, InitCounters(r), rest);
    Cons(s1, ReadCounts(r, false), [InitCounters(r)] + rest);
  }

  lemma TailedFromReady(s: State, b: Ballot)
    requires Accepted(s, b)
    ensures var ready := s.(hash := Rebuilt(s), reqs := s.reqs[b.r := Request(Cast(b.voter, b.option), Ready)]);
      Tailed(ready, b.r, b.voter, b.option) == AfterBallot(s, b)
  {
  }

  lemma AcceptedRun(s: State, b: Ballot)
    requires b.r !in s.reqs && Accepted(s, b)
    ensures IsRun(s, BallotSteps(s, b)) && Run(s, BallotSteps(s, b)) == AfterBallot(s, b)
  {
    var kind := Cast(b.voter, b.option);
    TailRun(s.(hash := Rebuilt(s), reqs := s.reqs[b.r := Request(kind, Ready)]), b.r, b.voter, b.option);
    TailedFromReady(s, b);
    if s.hash == map[] {
      RebuildThen(s, b.r, kind, Tail(b.r));
      OpeningThen(s, b.r, kind, [ReadCounts(b.r, false)] + ([InitCounters(b.r)] + Tail(b.r)));
    } else {
      OpeningThen(s, b.r, kind, Tail(b.r));
    }
  }

  lemma RefusedRun(s: State, b: Ballot)
    requires b.r !in s.reqs && !Accepted(s, b)
    ensures IsRun(s, BallotSteps(s, b)) && Run(s, BallotSteps(s, b)) == AfterBallot(s, b)
  {
    if !s.open || s.deleted || b.option !in s.opts {
      RejectedRun(s, b);
    } else {
      var kind := Cast(b.voter, b.option);
      var s2 := s.(reqs := s.reqs[b.r := Request(kind, Loaded)]);
      assert Apply(s2, DupCheck(b.r)) == AfterBallot(s, b) by {
        assert s2.reqs[b.r := Request(kind, Failed(Duplicate))] == s.reqs[b.r := Request(kind, Failed(Duplicate))];
      }
      Cons(s2, DupCheck(b.r), []);
      ArriveThenLoaded(s, b.r, kind, [DupCheck(b.r)] + []);
    }
  }

  lemma RejectedRun(s: State, b: Ballot)
    requires b.r !in s.reqs && (!s.open || s.deleted || b.option !in s.opts)
    ensures IsRun(s, BallotSteps(s, b)) && Run(s, BallotSteps(s, b)) == AfterBallot(s, b)
  {
    var kind := Cast(b.voter, b.option);
    var s1 := s.(reqs := s.reqs[b.r := Request(kind, Arrived)]);
    assert Apply(s, Arrive(b.r, kind)) == s1;
    assert Apply(s1, Reject(b.r)) == AfterBallot(s, b) by {
      assert s1.reqs[b.r := Request(kind, Failed(NotAccepted))] == s.reqs[b.r := Request(kind, Failed(NotAccepted))];
    }
    Cons(s1, Reject(b.r), []);
    Cons(s, Arrive(b.r, kind), [Reject(b.r)] + []);
  }

  // ----- ballot after ballot -----

  ghost predicate FreshBallots(s: State, ballots: seq<Ballot>) {
    && (forall b :: b in ballots ==> b.r !in s.reqs)
    && (forall i, j :: 0 <= i < j < |ballots| ==> ballots[i].r != ballots[j].r)
  }

  ghost function AfterBallots(s: State, ballots: seq<Ballot>): State {
    if ballots == [] then s
    else AfterBallot(AfterBallots(s, ballots[..|ballots| - 1]), ballots[|ballots| - 1])
  }

  function FramesOf(sent: seq<Sent>): seq<Frame> {
    seq(|sent|, i requires 0 <= i < |sent| => sent[i].frame)
  }

  /** What a viewer shows who has just received a fresh answer of GetResults. */
  function Recomputed(s: State): View {
    View(Rows(s.hash, s.opts), SumOver(s.hash, s.opts))
  }

  lemma SnapshotShowsRecomputed(s: State, view: View)
    ensures Receive(view, s.poll, ResultsFrame(s, false)) == Recomputed(s)
  {
  }

  /** No counters are lost, no pipeline is interrupted, and no reading of the durable counts fails. */
  predicate IsSmooth(steps: seq<Step>) {
    forall step :: step in steps ==>
      !step.InitField? && !step.InitEnd? && !step.LoseCounters? && (step.ReadCounts? ==> !step.failed)
  }

  lemma SmoothTail(r: nat)
    ensures IsSmooth(Tail(r)) && IsSmooth([ReadCounts(r, false)] + ([InitCounters(r)] + Tail(r)))
  {
  }

  lemma SmoothOpening(r: nat, kind: Kind, rest: seq<Step>)
    requires IsSmooth(rest)
    ensures IsSmooth(Opening(r, kind, rest))
  {
    assert forall step :: step in Opening(r, kind, rest) ==>
      step in rest || step in {Arrive(r, kind), Load(r), DupCheck(r), CheckCounters(r, false)};
  }

  lemma BallotIsSmooth(s: State, b: Ballot)
    ensures IsSmooth(BallotSteps(s, b))
  {
    SmoothTail(b.r);
    if Accepted(s, b) {
      SmoothOpening(b.r, Cast(b.voter, b.option),
        if s.hash == map[] then [ReadCounts(b.r, false)] + ([InitCounters(b.r)] + Tail(b.r)) else Tail(b.r));
    }
  }

  lemma {:induction false} BallotsRun(s: State, ballots: seq<Ballot>) returns (steps: seq<Step>)
    requires FreshBallots(s, ballots)
    ensures IsRun(s, steps) && Run(s, steps) == AfterBallots(s, ballots)
    ensures forall r :: r in AfterBallots(s, ballots).reqs ==> r in s.reqs || exists b :: b in ballots && b.r == r
    ensures IsSmooth(steps)
  {
    if ballots == [] {
      steps := [];
    } else {
      var front, b := ballots[..|ballots| - 1], ballots[|ballots| - 1];
      var first := BallotsRun(s, front);
      var m := AfterBallots(s, front);
      assert b.r !in m.reqs by {
        assert b in ballots;
        forall c | c in front ensures c.r != b.r {
        }
      }
      if Accepted(m, b) { AcceptedRun(m, b); } else { RefusedRun(m, b); }
      RunConcat(s, first, BallotSteps(m, b));
      steps := first + BallotSteps(m, b);
      BallotIsSmooth(m, b);
      forall r | r in AfterBallots(s, ballots).reqs ensures r in s.reqs || exists c :: c in ballots && c.r == r {
        if r == b.r {
          assert b in ballots;
        } else if r !in s.reqs {
          assert r in m.reqs;
          var c :| c in front && c.r == r;
          assert c in ballots;
        }
      }
    }
  }

  lemma BallotKeepsView(s: State, b: Ballot)
    requires s.hash.Keys == Elems(s.opts) && s.opts != []
    ensures var s' := AfterBallot(s, b);
      && s'.hash.Keys == Elems(s.opts) && s'.opts == s.opts && s'.poll == s.poll
      && s.sent <= s'.sent
      && Fold(Recomputed(s), s.poll, FramesOf(s'.sent[|s.sent|..])) == Recomputed(s')
  {
    var s' := AfterBallot(s, b);
    var fs := FramesOf(s'.sent[|s.sent|..]);
    if Accepted(s, b) {
      assert s.opts[0] in s.hash;
      assert fs == [VoteUpdate(s.poll, b.option, s'.hash[b.option], Some(SumOver(s'.hash, s.opts)))];
      assert fs[..0] == [];
      assert Receive(Recomputed(s), s.poll, fs[0]).rows == Rows(s'.hash, s.opts);
    } else {
      assert fs == [];
    }
  }

  /** The incremental view equals the recomputed one: a viewer who has received an answer of
      GetResults and then folds the events of ballots run to completion, accepted or refused, shows
      what one shows who receives a fresh answer, whatever either showed before, and however many
      closings of the poll and frames of other polls arrive in between. */
  lemma IncrementalViewEqualsRecompute(s: State, ballots: seq<Ballot>, before: View, other: View)
    requires s.hash.Keys == Elems(s.opts) && s.opts != [] && FreshBallots(s, ballots)
    ensures var s' := AfterBallots(s, ballots);
      var snapshot := Receive(before, s.poll, ResultsFrame(s, false));
      && s.sent <= s'.sent
      && forall frames | Relevant(frames, s.poll) == Relevant(FramesOf(s'.sent[|s.sent|..]), s.poll) ::
           Fold(snapshot, s.poll, frames) == Receive(other, s'.poll, ResultsFrame(s', false))
  {
    var s' := AfterBallots(s, ballots);
    SnapshotShowsRecomputed(s, before);
    SnapshotShowsRecomputed(s', other);
    BallotsKeepView(s, ballots);
    var events := FramesOf(s'.sent[|s.sent|..]);
    OnlyRelevantFramesShow(Recomputed(s), s.poll, events);
    forall frames | Relevant(frames, s.poll) == Relevant(events, s.poll)
      ensures Fold(Recomputed(s), s.poll, frames) == Recomputed(s')
    {
      OnlyRelevantFramesShow(Recomputed(s), s.poll, frames);
    }
  }

  lemma {:induction false} BallotsKeepView(s: State, ballots: seq<Ballot>)
    requires s.hash.Keys == Elems(s.opts) && s.opts != [] && FreshBallots(s, ballots)
    ensures var s' := AfterBallots(s, ballots);
      && s'.hash.Keys == Elems(s.opts) && s'.opts == s.opts && s'.poll == s.poll
      && s.sent <= s'.sent
      && Fold(Recomputed(s), s.poll, FramesOf(s'.sent[|s.sent|..])) == Recomputed(s')
  {
    var s' := AfterBallots(s, ballots);
    if ballots == [] {
      assert s'.sent[|s.sent|..] == [];
    } else {
      var front := ballots[..|ballots| - 1];
      BallotsKeepView(s, front);
      var m := AfterBallots(s, front);
      BallotKeepsView(m, ballots[|ballots| - 1]);
      FoldOnwards(Recomputed(s), s.poll, s.sent, m.sent, s'.sent);
    }
  }

  /** Folding the messages sent since the start is folding those of the first part, then the rest. */
  lemma FoldOnwards(view: View, poll: string, start: seq<Sent>, middle: seq<Sent>, end: seq<Sent>)
    requires start <= middle <= end
    ensures Fold(view, poll, FramesOf(end[|start|..]))
         == Fold(Fold(view, poll, FramesOf(middle[|start|..])), poll, FramesOf(end[|middle|..]))
  {
    var a, b := middle[|start|..], end[|middle|..];
    assert end[|start|..] == a + b;
    assert FramesOf(a + b) == FramesOf(a) + FramesOf(b);
    FoldConcat(view, poll, FramesOf(a), FramesOf(b));
  }
}
