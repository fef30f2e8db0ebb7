/** The events the protocol publishes: which counts and totals they carry. */
module Events {
  import opened Common
  import opened VoteLog
  import opened VoteProtocol
  import opened SingleVote
  import opened Conservation
  import opened Bounds

  // ----- who sends what -----

  /** A published event is its request's answer; a snapshot is that of a served one. */
  ghost predicate SentFrom(m: Sent, s: State) {
    && m.from in s.reqs
    && (m.frame.VoteUpdate? ==>
          && m.frame.newTotal.Some?
          && s.reqs[m.from].kind.Cast? && s.reqs[m.from].kind.option == m.frame.option
          && s.reqs[m.from].pc == Done(m.frame.count, m.frame.newTotal.value))
    && (!m.frame.VoteUpdate? ==> s.reqs[m.from].pc == Served)
  }

  ghost predicate SendersInv(s: State) {
    && (forall m :: m in s.sent ==> SentFrom(m, s))
    && (forall i, j :: 0 <= i < j < |s.sent| ==> s.sent[i].from != s.sent[j].from)
  }

  lemma SentFromStep(s: State, step: Step, m: Sent)
    requires Enabled(s, step) && m in Apply(s, step).sent && (m in s.sent ==> SentFrom(m, s))
    ensures SentFrom(m, Apply(s, step))
  {
    SentEffect(s, step);
  }

  lemma SendersStep(s: State, step: Step)
    requires SendersInv(s) && Enabled(s, step)
    ensures SendersInv(Apply(s, step))
  {
    SentEffect(s, step);
    forall m | m in Apply(s, step).sent ensures SentFrom(m, Apply(s, step)) {
      SentFromStep(s, step, m);
    }
    if Apply(s, step).sent != s.sent {
      forall i | 0 <= i < |s.sent| ensures s.sent[i].from != step.r {
        assert SentFrom(s.sent[i], s);
      }
    }
  }

  // ----- no count twice -----

  predicate SameCount(q: Request, p: Request) {
    q.kind.Cast? && p.kind.Cast? && HasCount(q.pc) && HasCount(p.pc) && q.kind.option == p.kind.option
    && q.pc.count == p.pc.count
  }

  predicate CountUnder(q: Request, level: map<string, nat>) {
    q.kind.Cast? && HasCount(q.pc) ==> 1 <= q.pc.count <= Get(level, q.kind.option)
  }

  /** No two requests were given the same count of an option, and none a count above the option's level. */
  ghost predicate CountsUnder(s: State, level: map<string, nat>) {
    && (forall r :: r in s.reqs ==> CountUnder(s.reqs[r], level))
    && (forall r, q :: r in s.reqs && q in s.reqs && r != q ==> !SameCount(s.reqs[r], s.reqs[q]))
  }

  /** Levels never fall, and what an increment returns lies just above its option's. */
  ghost predicate Rises(s: State, step: Step, level: map<string, nat>, level': map<string, nat>)
    requires Enabled(s, step)
  {
    && (forall r :: r in s.reqs && s.reqs[r].kind.Cast? && HasCount(s.reqs[r].pc) ==>
          Get(level, s.reqs[r].kind.option) <= Get(level', s.reqs[r].kind.option))
    && (step.Increment? ==>
          Get(s.hash, s.reqs[step.r].kind.option) == Get(level, s.reqs[step.r].kind.option)
          < Get(level', s.reqs[step.r].kind.option))
  }

  lemma CountUnderStep(s: State, step: Step, level: map<string, nat>, level': map<string, nat>, r: nat)
    requires CountsUnder(s, level) && Enabled(s, step) && Rises(s, step, level, level') && r in Apply(s, step).reqs
    ensures CountUnder(Apply(s, step).reqs[r], level')
  {
    CountEffect(s, step, r);
    if r in s.reqs {
      assert CountUnder(s.reqs[r], level);
    }
  }

  lemma SameCountStep(s: State, step: Step, level: map<string, nat>, level': map<string, nat>, r: nat, q: nat)
    requires CountsUnder(s, level) && Enabled(s, step) && Rises(s, step, level, level')
    requires r in Apply(s, step).reqs && q in Apply(s, step).reqs && r != q
    ensures !SameCount(Apply(s, step).reqs[r], Apply(s, step).reqs[q])
  {
    CountEffect(s, step, r);
    CountEffect(s, step, q);
    if r in s.reqs && q in s.reqs {
      assert !SameCount(s.reqs[r], s.reqs[q]);
      assert CountUnder(s.reqs[r], level) && CountUnder(s.reqs[q], level);
    }
  }

  lemma CountsUnderStep(s: State, step: Step, level: map<string, nat>, level': map<string, nat>)
    requires CountsUnder(s, level) && Enabled(s, step) && Rises(s, step, level, level')
    ensures CountsUnder(Apply(s, step), level')
  {
    var s' := Apply(s, step);
    forall r | r in s'.reqs ensures CountUnder(s'.reqs[r], level') {
      CountUnderStep(s, step, level, level', r);
    }
    forall r, q | r in s'.reqs && q in s'.reqs && r != q ensures !SameCount(s'.reqs[r], s'.reqs[q]) {
      SameCountStep(s, step, level, level', r, q);
    }
  }

  predicate TotalsCover(s: State) {
    forall r :: r in s.reqs && s.reqs[r].kind.Cast? && HasTotal(s.reqs[r].pc) ==>
      s.reqs[r].pc.count <= s.reqs[r].pc.total
  }

  /** A total is read after its count was returned, so it covers it while the counter has not fallen. */
  lemma TotalsCoverStep(s: State, step: Step)
    requires TotalsCover(s) && ReqInv(s) && Enabled(s, step)
    requires step.ReadTotal? && s.reqs[step.r].kind.Cast? ==> CountUnder(s.reqs[step.r], s.hash)
    ensures TotalsCover(Apply(s, step))
  {
    var s' := Apply(s, step);
    forall r | r in s'.reqs && s'.reqs[r].kind.Cast? && HasTotal(s'.reqs[r].pc)
      ensures s'.reqs[r].pc.count <= s'.reqs[r].pc.total
    {
      CountEffect(s, step, r);
      assert ReqOk(s.reqs[r], s.opts, s.epoch);
      if step.ReadTotal? && step.r == r {
        SumOverBoundsEach(s.hash, s.opts, s.reqs[r].kind.option);
      }
    }
  }

  /** What the sent messages say when the requests behind them are in order. */
  ghost predicate EventsFaithful(sent: seq<Sent>) {
    && (forall i, j | 0 <= i < j < |sent| && sent[i].frame.VoteUpdate? && sent[j].frame.VoteUpdate? ::
          sent[i].frame.option == sent[j].frame.option ==> sent[i].frame.count != sent[j].frame.count)
    && (forall m :: m in sent && m.frame.VoteUpdate? ==>
          m.frame.newTotal.Some? && 1 <= m.frame.count <= m.frame.newTotal.value)
  }

  lemma OrderedEvents(s: State, level: map<string, nat>)
    requires SendersInv(s) && CountsUnder(s, level) && TotalsCover(s)
    ensures EventsFaithful(s.sent)
  {
    forall m | m in s.sent && m.frame.VoteUpdate?
      ensures m.frame.newTotal.Some? && 1 <= m.frame.count <= m.frame.newTotal.value
    {
      assert SentFrom(m, s) && CountUnder(s.reqs[m.from], level);
    }
    forall i, j | 0 <= i < j < |s.sent| && s.sent[i].frame.VoteUpdate? && s.sent[j].frame.VoteUpdate?
        && s.sent[i].frame.option == s.sent[j].frame.option
      ensures s.sent[i].frame.count != s.sent[j].frame.count
    {
      assert SentFrom(s.sent[i], s) && SentFrom(s.sent[j], s);
      assert !SameCount(s.reqs[s.sent[i].from], s.reqs[s.sent[j].from]);
    }
  }

  // ----- runs without loss, whatever else fails -----

  lemma CountersRise(s: State, step: Step)
    requires Enabled(s, step) && step != LoseCounters
    ensures Rises(s, step, s.hash, Apply(s, step).hash)
  {
    forall o ensures Get(Apply(s, step).hash, o)
      >= Get(s.hash, o) + (if step.Increment? && s.reqs[step.r].kind.option == o then 1 else 0)
    {
      HashAfter(s, step, o);
      if step.Increment? {
        assert s.reqs[step.r].kind.option in Apply(s, step).hash;
      }
    }
  }

  lemma {:induction false} LossFreeRun(s: State, steps: seq<Step>)
    requires ReqInv(s) && SendersInv(s) && CountsUnder(s, s.hash) && TotalsCover(s)
    requires IsRun(s, steps) && LoseCounters !in steps
    ensures var s' := Run(s, steps); SendersInv(s') && CountsUnder(s', s'.hash) && TotalsCover(s')
    decreases |steps|
  {
    if steps != [] {
      ReqInvStep(s, steps[0]);
      SendersStep(s, steps[0]);
      CountersRise(s, steps[0]);
      CountsUnderStep(s, steps[0], s.hash, Apply(s, steps[0]).hash);
      TotalsCoverStep(s, steps[0]);
      LossFreeRun(Apply(s, steps[0]), steps[1..]);
    }
  }

  /** In every run without loss, whatever pipelines, writes and reads do: no two published events
      carry the same option and count, and in each one the count is at least one and at most the
      total.  If the run is careful, the total is at most the votes stored. */
  lemma LossFreeEventsAreFaithful(s: State, steps: seq<Step>)
    requires Init(s) && IsRun(s, steps) && LoseCounters !in steps
    ensures EventsFaithful(Run(s, steps).sent)
    ensures Distinct(s.opts) && CarefulRun(s, steps) ==>
      forall m :: m in Run(s, steps).sent && m.frame.VoteUpdate? ==>
        && m.frame.count <= Tally(Run(s, steps).votes, m.frame.poll, m.frame.option)
        && m.frame.newTotal.value <= |Run(s, steps).votes|
  {
    InitHolds(s);
    LossFreeRun(s, steps);
    OrderedEvents(Run(s, steps), Run(s, steps).hash);
    if Distinct(s.opts) && CarefulRun(s, steps) {
      BoundAtFirst(s);
      BoundRun(s, steps);
    }
  }

  // ----- runs with losses, under the assumptions of the conservation law -----

  /** Where the counter of `o` stands, or would stand if it were rebuilt now. */
  function Level(s: State, o: string): nat {
    if o in s.hash then s.hash[o] else Tally(s.votes, s.poll, o)
  }

  function Levels(s: State): map<string, nat> {
    map o | o in s.opts :: Level(s, o)
  }

  /** While they are present, the level is the counter, which only its increments move. */
  lemma LevelOfPresent(s: State, step: Step, o: string)
    requires Consistent(s) && Enabled(s, step) && o in s.opts && s.hash != map[] && step != LoseCounters
    ensures var counts := step.Increment? && s.reqs[step.r].kind.option == o;
      && Level(Apply(s, step), o) == Level(s, o) + (if counts then 1 else 0)
      && (counts ==> Get(s.hash, o) == Level(s, o))
  {
    HashAfter(s, step, o);
  }

  /** While the counters are absent, the level is the tally, before and after. */
  lemma LevelOfAbsent(s: State, step: Step, o: string)
    requires Consistent(s) && Enabled(s, step) && Assumed(s, step) && o in s.opts
    requires s.hash == map[] && step != LoseCounters
    ensures Level(Apply(s, step), o) == Tally(s.votes, s.poll, o) == Level(s, o) && !step.Increment?
  {
    AbsentHashBlocksStep(s, step);
    if step.InitCounters? {
      RebuildIsExact(s, step.r);
    } else {
      IdleStep(s, step);
    }
  }

  lemma LevelRises(s: State, step: Step, o: string)
    requires Consistent(s) && Enabled(s, step) && Assumed(s, step) && o in s.opts
    ensures var counts := step.Increment? && s.reqs[step.r].kind.option == o;
      && Level(s, o) + (if counts then 1 else 0) <= Level(Apply(s, step), o)
      && (counts ==> Get(s.hash, o) == Level(s, o))
  {
    if step != LoseCounters {
      if s.hash != map[] { LevelOfPresent(s, step, o); } else { LevelOfAbsent(s, step, o); }
    } else if o in s.hash {
      assert Drift(s, o) == 0;
    }
  }

  lemma LevelsRise(s: State, step: Step)
    requires Consistent(s) && Enabled(s, step) && Assumed(s, step)
    ensures Rises(s, step, Levels(s), Levels(Apply(s, step)))
  {
    ReqInvStep(s, step);
    forall r | r in s.reqs && s.reqs[r].kind.Cast? && (HasCount(s.reqs[r].pc) || (step.Increment? && r == step.r))
      ensures Get(Levels(s), s.reqs[r].kind.option) <= Get(Levels(Apply(s, step)), s.reqs[r].kind.option)
      ensures step.Increment? && r == step.r ==>
        Get(s.hash, s.reqs[r].kind.option) == Get(Levels(s), s.reqs[r].kind.option)
        < Get(Levels(Apply(s, step)), s.reqs[r].kind.option)
    {
      assert ReqOk(s.reqs[r], s.opts, s.epoch);
      LevelRises(s, step, s.reqs[r].kind.option);
    }
  }

  /** Losses that also wait for counted votes whose total has not been read. */
  ghost predicate CalmRun(s: State, steps: seq<Step>)
    decreases |steps|
  {
    steps != [] ==>
      && Enabled(s, steps[0])
      && (steps[0] == LoseCounters ==> forall r :: r in s.reqs ==> !s.reqs[r].pc.Incremented?)
      && CalmRun(Apply(s, steps[0]), steps[1..])
  }

  predicate CountedIsPresent(s: State) {
    forall r :: r in s.reqs && s.reqs[r].pc.Incremented? ==> s.hash != map[]
  }

  lemma CountedIsPresentStep(s: State, step: Step)
    requires CountedIsPresent(s) && Enabled(s, step)
    requires step == LoseCounters ==> forall r :: r in s.reqs ==> !s.reqs[r].pc.Incremented?
    ensures CountedIsPresent(Apply(s, step))
  {
    forall r | r in Apply(s, step).reqs && Apply(s, step).reqs[r].pc.Incremented? ensures Apply(s, step).hash != map[] {
      CountEffect(s, step, r);
      if step.Increment? {
        assert s.reqs[step.r].kind.option in Apply(s, step).hash;
      } else if o :| o in s.hash {
        HashAfter(s, step, o);
      }
    }
  }

  lemma {:induction false} CalmRunHolds(s: State, steps: seq<Step>)
    requires Consistent(s) && SendersInv(s) && CountsUnder(s, Levels(s)) && TotalsCover(s) && CountedIsPresent(s)
    requires AssumedRun(s, steps) && CalmRun(s, steps)
    ensures IsRun(s, steps)
    ensures var s' := Run(s, steps); SendersInv(s') && CountsUnder(s', Levels(s')) && TotalsCover(s')
    decreases |steps|
  {
    if steps != [] {
      ConsistentStep(s, steps[0]);
      SendersStep(s, steps[0]);
      CalmStep(s, steps[0]);
      CalmRunHolds(Apply(s, steps[0]), steps[1..]);
    }
  }

  lemma CalmStep(s: State, step: Step)
    requires Consistent(s) && CountsUnder(s, Levels(s)) && TotalsCover(s) && CountedIsPresent(s)
    requires Enabled(s, step) && Assumed(s, step)
    requires step == LoseCounters ==> forall r :: r in s.reqs ==> !s.reqs[r].pc.Incremented?
    ensures var s' := Apply(s, step); CountsUnder(s', Levels(s')) && TotalsCover(s') && CountedIsPresent(s')
  {
    LevelsRise(s, step);
    CountsUnderStep(s, step, Levels(s), Levels(Apply(s, step)));
    if step.ReadTotal? {
      CountUnderHash(s, step.r);
    }
    TotalsCoverStep(s, step);
    CountedIsPresentStep(s, step);
  }

  lemma CountUnderHash(s: State, r: nat)
    requires Consistent(s) && CountsUnder(s, Levels(s)) && CountedIsPresent(s)
    requires r in s.reqs && s.reqs[r].pc.Incremented?
    ensures CountUnder(s.reqs[r], s.hash)
  {
    assert CountUnder(s.reqs[r], Levels(s)) && ReqOk(s.reqs[r], s.opts, s.epoch);
  }

  /** Under the assumptions of the conservation law, published events stay faithful across losses that
      leave nobody between an increment and its total: no two carry the same option and count, and
      in each one the count is at most the total, which is at most the votes stored. */
  lemma PublishedEventsAreFaithful(s: State, steps: seq<Step>)
    requires Init(s) && s.opts != [] && Distinct(s.opts) && AssumedRun(s, steps) && CalmRun(s, steps)
    ensures IsRun(s, steps) && EventsFaithful(Run(s, steps).sent)
    ensures forall m :: m in Run(s, steps).sent && m.frame.VoteUpdate? ==>
      m.frame.newTotal.value <= |Run(s, steps).votes|
  {
    InitHolds(s);
    CalmRunHolds(s, steps);
    OrderedEvents(Run(s, steps), Levels(Run(s, steps)));
    AssumedIsCareful(s, steps);
    BoundAtFirst(s);
    BoundRun(s, steps);
  }
}
