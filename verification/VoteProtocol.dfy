/**
 The concurrent vote protocol of one poll: any number of `CastVote` and `GetResults` requests,
 interleaved arbitrarily over the durable log and the Redis counter hash.  Each step is one
 store operation of one request, or one step of the environment.
 */
module VoteProtocol {
  import opened Common
  import opened VoteLog

  datatype Kind = Cast(voter: string, option: string) | Results

  datatype Failure = NotAccepted | Duplicate | StorageError

  /** Where a request stands, with the local values it carries from there on. */
  datatype Pc =
    | Arrived
    | Loaded                                  // poll found, open, and the option belongs to it
    | Checked                                 // the voter had no stored vote when asked
    | Absent                                  // EXISTS answered no, or failed
    | CountsRead(counts: map<string, nat>)    // durable counts fetched, hash not yet written
    | Ready                                   // ensureRedisInitialized has returned
    | Inserted(failures: nat)                 // vote stored, this many failed increments so far
    | Incremented(count: nat)
    | TotalRead(count: nat, total: nat)
    | GaveUp(epoch: nat)                      // vote stored, its increment will never happen
    | Done(count: nat, total: nat)            // vote stored and counted, event handed over or lost
    | Served                                  // GetResults has answered
    | Failed(why: Failure)

  datatype Request = Request(kind: Kind, pc: Pc)

  datatype Sent = Sent(from: nat, frame: Frame)

  /** `epoch` counts the losses of the counter hash; an absent hash and an empty one are the same in Redis. */
  datatype State = State(
    poll: string,
    opts: seq<string>,
    votes: seq<Vote>,
    hash: map<string, nat>,
    epoch: nat,
    reqs: map<nat, Request>,
    open: bool,
    deleted: bool,
    sent: seq<Sent>)

  datatype Step =
    | Arrive(r: nat, kind: Kind)
    | Load(r: nat)
    | Reject(r: nat)
    | DupCheck(r: nat)
    | CheckCounters(r: nat, failed: bool)
    | ReadCounts(r: nat, failed: bool)
    | InitCounters(r: nat)                    // the whole HSETNX pipeline at once
    | InitField(r: nat, o: string)            // one HSETNX of the pipeline
    | InitEnd(r: nat)                         // the pipeline returned, or failed
    | Insert(r: nat)
    | InsertFails(r: nat)
    | Increment(r: nat)
    | IncrementFails(r: nat, cancelled: bool)
    | ReadTotal(r: nat, failed: bool)
    | Publish(r: nat, ok: bool)
    | Serve(r: nat, redisFailed: bool)
    | LoseCounters                            // restart, eviction or expiry of the hash
    | Close
    | Reopen
    | Delete

  predicate At(s: State, r: nat) {
    r in s.reqs
  }

  predicate Enabled(s: State, step: Step) {
    match step
    case Arrive(r, _) => r !in s.reqs
    case Load(r) =>
      && At(s, r) && s.reqs[r].pc == Arrived && !s.deleted
      && (s.reqs[r].kind.Cast? ==> s.open && s.reqs[r].kind.option in s.opts)
    case Reject(r) => At(s, r) && (s.reqs[r].pc == Arrived || (s.reqs[r].pc == Loaded && s.reqs[r].kind.Cast?))
    case DupCheck(r) => At(s, r) && s.reqs[r].pc == Loaded
    case CheckCounters(r, _) => At(s, r) && s.reqs[r].pc == Checked
    case ReadCounts(r, _) => At(s, r) && s.reqs[r].pc == Absent
    case InitCounters(r) => At(s, r) && s.reqs[r].pc.CountsRead?
    case InitField(r, o) => At(s, r) && s.reqs[r].pc.CountsRead? && o in s.opts
    case InitEnd(r) => At(s, r) && s.reqs[r].pc.CountsRead?
    case Insert(r) => At(s, r) && s.reqs[r].pc == Ready && s.reqs[r].kind.Cast?
    case InsertFails(r) => At(s, r) && s.reqs[r].pc == Ready && s.reqs[r].kind.Cast?
    case Increment(r) => At(s, r) && s.reqs[r].pc.Inserted? && s.reqs[r].kind.Cast?
    case IncrementFails(r, _) => At(s, r) && s.reqs[r].pc.Inserted?
    case ReadTotal(r, _) => At(s, r) && s.reqs[r].pc.Incremented?
    case Publish(r, _) => At(s, r) && s.reqs[r].pc.TotalRead? && s.reqs[r].kind.Cast?
    case Serve(r, _) => At(s, r) && s.reqs[r].pc == Ready && s.reqs[r].kind == Results
    case LoseCounters => true
    case Close => !s.deleted
    case Reopen => !s.deleted
    case Delete => !s.deleted
  }

  /** Every step of a request names it; the environment's steps name none. */
  predicate HasSubject(step: Step) {
    !step.LoseCounters? && !step.Close? && !step.Reopen? && !step.Delete?
  }

  /** Where the request goes. */
  ghost function NextPc(s: State, step: Step): Pc
    requires Enabled(s, step) && HasSubject(step)
  {
    match step
    case Arrive(_, _) => Arrived
    case Load(_) => Loaded
    case Reject(_) => Failed(NotAccepted)
    case DupCheck(r) => if AlreadyVoted(s, s.reqs[r].kind) then Failed(Duplicate) else Checked
    case CheckCounters(_, failed) => if !failed && s.hash != map[] then Ready else Absent
    case ReadCounts(_, failed) => CountsRead(if failed then map[] else CountsByOption(s.votes, s.poll))
    case InitCounters(_) => Ready
    case InitField(r, _) => s.reqs[r].pc
    case InitEnd(_) => Ready
    case Insert(r) => if AlreadyVoted(s, s.reqs[r].kind) then Failed(Duplicate) else Inserted(0)
    case InsertFails(_) => Failed(StorageError)
    case Increment(r) => Incremented(Get(s.hash, s.reqs[r].kind.option) + 1)
    case IncrementFails(r, cancelled) =>
      var k := s.reqs[r].pc.failures + 1;
      if cancelled || k >= MAX_INCREMENT_ATTEMPTS then GaveUp(s.epoch) else Inserted(k)
    case ReadTotal(r, failed) =>
      var c := s.reqs[r].pc.count;
      TotalRead(c, if failed then c else SumOver(s.hash, s.opts))
    case Publish(r, _) => Done(s.reqs[r].pc.count, s.reqs[r].pc.total)
    case Serve(_, _) => Served
  }

  ghost predicate AlreadyVoted(s: State, kind: Kind) {
    kind.Cast? && HasVoted(s.votes, s.poll, kind.voter)
  }

  /** An insert that the unique index admits adds one vote; nothing removes one. */
  ghost function NextVotes(s: State, step: Step): seq<Vote>
    requires Enabled(s, step)
  {
    if step.Insert? && !AlreadyVoted(s, s.reqs[step.r].kind) then
      s.votes + [Vote(step.r, s.poll, s.reqs[step.r].kind.option, s.reqs[step.r].kind.voter)]
    else s.votes
  }

  function NextHash(s: State, step: Step): map<string, nat>
    requires Enabled(s, step)
  {
    match step
    case InitCounters(r) => InitHash(s.hash, s.opts, s.reqs[r].pc.counts)
    case InitField(r, o) => HSetNX(s.hash, o, Get(s.reqs[r].pc.counts, o))
    case Increment(r) => HIncrBy(s.hash, s.reqs[r].kind.option)
    case LoseCounters => map[]
    case _ => s.hash
  }

  function NextSent(s: State, step: Step): seq<Sent>
    requires Enabled(s, step)
  {
    if step.Publish? && step.ok then
      var TotalRead(c, t) := s.reqs[step.r].pc;
      s.sent + [Sent(step.r, VoteUpdate(s.poll, s.reqs[step.r].kind.option, c, Some(t)))]
    else if step.Serve? then s.sent + [Sent(step.r, ResultsFrame(s, step.redisFailed))]
    else s.sent
  }

  ghost function NextReqs(s: State, step: Step): map<nat, Request>
    requires Enabled(s, step)
  {
    if !HasSubject(step) then s.reqs
    else s.reqs[step.r := Request(if step.Arrive? then step.kind else s.reqs[step.r].kind, NextPc(s, step))]
  }

  ghost function Apply(s: State, step: Step): State
    requires Enabled(s, step)
  {
    s.(reqs := NextReqs(s, step),
       votes := NextVotes(s, step),
       hash := NextHash(s, step),
       sent := NextSent(s, step),
       epoch := if step.LoseCounters? then s.epoch + 1 else s.epoch,
       open := if step.Close? then false else if step.Reopen? then true else s.open,
       deleted := s.deleted || step.Delete?)
  }

  /** What GetResults answers: the Redis counts, or the durable ones when Redis is unreachable. */
  function ResultsFrame(s: State, redisFailed: bool): Frame {
    if redisFailed then
      var counts := CountsByOption(s.votes, s.poll);
      Snapshot(s.poll, Rows(counts, s.opts), PollTotal(s.votes, s.poll))
    else
      Snapshot(s.poll, Rows(s.hash, s.opts), SumOver(s.hash, s.opts))
  }

  /** A state before any request: no votes, no counters. */
  predicate Init(s: State) {
    s.votes == [] && s.hash == map[] && s.reqs == map[] && s.sent == [] && s.epoch == 0
  }

  // ----- runs -----

  ghost predicate IsRun(s: State, steps: seq<Step>)
    decreases |steps|
  {
    steps != [] ==> Enabled(s, steps[0]) && IsRun(Apply(s, steps[0]), steps[1..])
  }

  ghost function Run(s: State, steps: seq<Step>): State
    requires IsRun(s, steps)
    decreases |steps|
  {
    if steps == [] then s else Run(Apply(s, steps[0]), steps[1..])
  }

  // ----- in-flight work -----

  /** A vote request whose vote is in the log. CastVote answers success from every one of these. */
  predicate StoredPc(pc: Pc) {
    pc.Inserted? || pc.Incremented? || pc.TotalRead? || pc.GaveUp? || pc.Done?
  }

  predicate IsPending(q: Request, o: string) {
    q.kind.Cast? && q.kind.option == o && q.pc.Inserted?
  }

  predicate IsDropped(q: Request, o: string, epoch: nat) {
    q.kind.Cast? && q.kind.option == o && q.pc == GaveUp(epoch)
  }

  /** Requests whose vote for `o` is stored but not yet counted. */
  function Pending(s: State, o: string): set<nat> {
    set r | r in s.reqs && IsPending(s.reqs[r], o)
  }

  /** Requests that gave up counting their vote for `o` since the counters were last lost. */
  function Dropped(s: State, o: string): set<nat> {
    set r | r in s.reqs && IsDropped(s.reqs[r], o, s.epoch)
  }

  /** By how much the counter of `o`, with the work outstanding, exceeds the stored votes. */
  function Drift(s: State, o: string): int
    requires o in s.hash
  {
    s.hash[o] + |Pending(s, o)| + |Dropped(s, o)| - Tally(s.votes, s.poll, o)
  }
}
