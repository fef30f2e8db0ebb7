/**
 One poll as a whole: its creator's operations on the stored document and the vote protocol, which
 reads that document, interleaved in any order.
 */
module PollSystem {
  import opened Common
  import opened VoteLog
  import opened VoteProtocol
  import opened SingleVote
  import opened Conservation
  import opened Schedules
  import opened PollLifecycle
  import opened Results
  import PollValidation

  datatype World = World(votes: State, store: Store)

  datatype Move = Vote(step: Step) | Admin(op: Op)

  function CurrentOptions(w: World): seq<string>
    requires w.votes.poll in w.store.docs
  {
    PollValidation.Ids(w.store.docs[w.votes.poll].options)
  }

  /** What a request sees when it loads the poll: the document as it then is. */
  ghost predicate Loads(w: World, r: nat) {
    && r in w.votes.reqs && w.votes.reqs[r].pc == Arrived
    && Find(w.store.docs, w.votes.poll).Some?
    && (w.votes.reqs[r].kind.Cast? ==>
          && Find(w.store.docs, w.votes.poll).value.status == PollValidation.Active
          && w.votes.reqs[r].kind.option in PollValidation.Ids(Find(w.store.docs, w.votes.poll).value.options))
  }

  /** The document decides about loading and about the status; only generated IDs and updates with
      distinct IDs come from the creator. */
  ghost predicate Possible(w: World, move: Move) {
    match move
    case Vote(step) =>
      && !step.Close? && !step.Reopen? && !step.Delete?
      && if step.Load? then Loads(w, step.r) else Enabled(w.votes, step)
    case Admin(op) => FreshIds(w.store, op) && IdRespecting(op)
  }

  /** The protocol's view of the poll agrees with the stored document. */
  ghost predicate Coupled(w: World) {
    && StoreInv(w.store) && w.votes.poll in w.store.docs
    && Distinct(w.votes.opts) && multiset(CurrentOptions(w)) == multiset(w.votes.opts)
    && (w.votes.open <==> w.store.docs[w.votes.poll].status == PollValidation.Active)
    && (w.votes.deleted <==> w.store.docs[w.votes.poll].deleted)
  }

  /** Loading by the document is loading by the protocol's view of it. */
  lemma LoadsAsEnabled(w: World, r: nat)
    requires Coupled(w)
    ensures Loads(w, r) <==> Enabled(w.votes, Load(r))
  {
    SameOptions(CurrentOptions(w), w.votes.opts);
  }

  lemma PossibleIsEnabled(w: World, step: Step)
    requires Coupled(w) && Possible(w, Move.Vote(step))
    ensures Enabled(w.votes, step)
  {
    if step.Load? {
      LoadsAsEnabled(w, step.r);
    }
  }

  lemma SameOptions(a: seq<string>, b: seq<string>)
    requires multiset(a) == multiset(b)
    ensures forall o :: o in a <==> o in b
  {
    forall o ensures o in a <==> o in b {
      assert o in a <==> o in multiset(a);
      assert o in b <==> o in multiset(b);
    }
  }

  /** What an operation on the document is to the protocol. */
  ghost function StatusStep(w: World, op: Op): (steps: seq<Step>)
    requires w.votes.poll in w.store.docs && FreshIds(w.store, op)
  {
    var docs, k := Exec(w.store, op).0.docs, w.votes.poll;
    if k !in docs || docs[k] == w.store.docs[k] then []
    else if docs[k].deleted && !w.votes.deleted then [Step.Delete]
    else if docs[k].status != w.store.docs[k].status then
      [if docs[k].status == PollValidation.Active then Reopen else Close]
    else []
  }

  /** The poll's creator asks to re-open it. */
  predicate IsReopening(w: World, move: Move)
    requires w.votes.poll in w.store.docs
  {
    move.Admin? && Reopens(move.op, w.votes.poll) && move.op.creator == w.store.docs[w.votes.poll].creator
  }

  /** The protocol's share of a move. */
  ghost function Share(w: World, move: Move): seq<Step>
    requires w.votes.poll in w.store.docs && Possible(w, move)
  {
    match move
    case Vote(step) => [step]
    case Admin(op) => StatusStep(w, op)
  }

  lemma StatusStepIsRun(w: World, op: Op)
    requires Coupled(w) && FreshIds(w.store, op)
    ensures IsRun(w.votes, StatusStep(w, op))
    ensures var s', docs := Run(w.votes, StatusStep(w, op)), Exec(w.store, op).0.docs;
      && w.votes.poll in docs
      && s' == w.votes.(open := docs[w.votes.poll].status == PollValidation.Active,
                        deleted := docs[w.votes.poll].deleted)
  {
    KeepsStep(w.store, op, w.votes.poll);
    var doc, doc' := w.store.docs[w.votes.poll], Exec(w.store, op).0.docs[w.votes.poll];
    StatusOrDeletion(w.store, op, w.votes.poll);
    StatusEffect(w, doc, doc', StatusStep(w, op));
  }

  /** Only its creator's request re-opens a poll. */
  lemma ReopeningIsAsked(w: World, op: Op)
    requires Coupled(w) && FreshIds(w.store, op) && Reopen in StatusStep(w, op)
    ensures IsReopening(w, Admin(op))
  {
    KeepsStep(w.store, op, w.votes.poll);
  }

  lemma StatusEffect(w: World, doc: PollValidation.PollDoc, doc': PollValidation.PollDoc, steps: seq<Step>)
    requires w.votes.open <==> doc.status == PollValidation.Active
    requires w.votes.deleted <==> doc.deleted
    requires doc.deleted ==> doc' == doc
    requires doc'.status == doc.status || doc'.deleted == doc.deleted
    requires steps ==
      if doc' == doc then []
      else if doc'.deleted && !w.votes.deleted then [Step.Delete]
      else if doc'.status != doc.status then [if doc'.status == PollValidation.Active then Reopen else Close]
      else []
    ensures IsRun(w.votes, steps)
    ensures Run(w.votes, steps) == w.votes.(open := doc'.status == PollValidation.Active, deleted := doc'.deleted)
  {
    if steps != [] {
      Cons(w.votes, steps[0], []);
      assert [steps[0]] + [] == steps;
    }
  }

  /** One operation never changes a document's status and deletes it. */
  lemma StatusOrDeletion(st: Store, op: Op, k: string)
    requires StoreInv(st) && FreshIds(st, op) && k in st.docs && k in Exec(st, op).0.docs
    ensures Exec(st, op).0.docs[k].status == st.docs[k].status || Exec(st, op).0.docs[k].deleted == st.docs[k].deleted
  {
    if !op.Create? {
      ExecEffect(st, op);
      if Admit(st, op).Ok? && Amend(Admit(st, op).value, op).Ok? {
        OwnerEffect(st, op);
        AmendsStatusOrDeletes(Admit(st, op).value, op);
      }
    }
  }

  lemma AmendsStatusOrDeletes(doc: PollValidation.PollDoc, op: Op)
    requires !op.Create? && (op.SetStatus? ==> op.status.Some?) && Amend(doc, op).Ok?
    ensures Amend(doc, op).value.status == doc.status || Amend(doc, op).value.deleted == doc.deleted
  {
  }

  ghost function Next(w: World, move: Move): World
    requires Coupled(w) && Possible(w, move)
  {
    match move
    case Vote(step) =>
      PossibleIsEnabled(w, step);
      World(Apply(w.votes, step), w.store)
    case Admin(op) =>
      StatusStepIsRun(w, op);
      World(Run(w.votes, StatusStep(w, op)), Exec(w.store, op).0)
  }

  lemma CoupledStep(w: World, move: Move)
    requires Coupled(w) && Possible(w, move)
    ensures Coupled(Next(w, move))
  {
    match move
    case Vote(step) =>
      PossibleIsEnabled(w, step);
    case Admin(op) =>
      StatusStepIsRun(w, op);
      StoreInvStep(w.store, op);
      PollValidation.DistinctByMultiset(CurrentOptions(w), w.votes.opts);
      IdsStep(w.store, op, w.votes.poll);
  }

  ghost predicate IsCourse(w: World, moves: seq<Move>)
    requires Coupled(w)
    decreases |moves|
  {
    moves != [] ==>
      && Possible(w, moves[0])
      && (CoupledStep(w, moves[0]); IsCourse(Next(w, moves[0]), moves[1..]))
  }

  ghost function Course(w: World, moves: seq<Move>): (end: World)
    requires Coupled(w) && IsCourse(w, moves)
    ensures Coupled(end)
    decreases |moves|
  {
    if moves == [] then w
    else
      CoupledStep(w, moves[0]);
      Course(Next(w, moves[0]), moves[1..])
  }

  /** The protocol's share of a whole course. */
  ghost function Shares(w: World, moves: seq<Move>): seq<Step>
    requires Coupled(w) && IsCourse(w, moves)
    decreases |moves|
  {
    if moves == [] then []
    else
      CoupledStep(w, moves[0]);
      Share(w, moves[0]) + Shares(Next(w, moves[0]), moves[1..])
  }

  /** However operations and requests interleave, the protocol's share is a run of the protocol;
      so every theorem about its runs holds of the poll as a whole. */
  lemma {:induction false} SharesAreARun(w: World, moves: seq<Move>)
    requires Coupled(w) && IsCourse(w, moves)
    ensures IsRun(w.votes, Shares(w, moves)) && Run(w.votes, Shares(w, moves)) == Course(w, moves).votes
    decreases |moves|
  {
    if moves != [] {
      var w' := Next(w, moves[0]);
      CoupledStep(w, moves[0]);
      SharesAreARun(w', moves[1..]);
      ShareIsRun(w, moves[0]);
      RunConcat(w.votes, Share(w, moves[0]), Shares(w', moves[1..]));
    }
  }

  lemma ShareIsRun(w: World, move: Move)
    requires Coupled(w) && Possible(w, move)
    ensures IsRun(w.votes, Share(w, move)) && Run(w.votes, Share(w, move)) == Next(w, move).votes
  {
    match move
    case Vote(step) =>
      PossibleIsEnabled(w, step);
      Cons(w.votes, step, []);
      assert [step] + [] == [step];
    case Admin(op) =>
      StatusStepIsRun(w, op);
  }

  /** A poll before any request, as it is created. */
  ghost predicate Fresh(w: World) {
    Coupled(w) && Init(w.votes)
  }

  /** In every state of every course, with updates and votes interleaved in any order, every stored
      vote names an option the document has at that moment; so for counters that hold the tallies,
      the Redis total over the document's options is the MongoDB total over all votes. */
  lemma TotalsAgreeThroughout(w: World, moves: seq<Move>, hash: map<string, nat>)
    requires Fresh(w) && IsCourse(w, moves)
    ensures var w' := Course(w, moves);
      && (forall v :: v in w'.votes.votes ==> v.poll == w'.votes.poll && v.option in CurrentOptions(w'))
      && ((forall o :: o in CurrentOptions(w') ==> Get(hash, o) == Tally(w'.votes.votes, w'.votes.poll, o)) ==>
            SumOver(hash, CurrentOptions(w')) == PollTotal(w'.votes.votes, w'.votes.poll))
  {
    var w' := Course(w, moves);
    SharesAreARun(w, moves);
    InitHolds(w.votes);
    LogInvRun(w.votes, Shares(w, moves));
    VotesNameOptions(w'.votes);
    SameOptions(CurrentOptions(w'), w'.votes.opts);
    PollValidation.DistinctByMultiset(CurrentOptions(w'), w'.votes.opts);
    if forall o :: o in CurrentOptions(w') ==> Get(hash, o) == Tally(w'.votes.votes, w'.votes.poll, o) {
      TotalsAgreeIff(w'.votes.votes, w'.votes.poll, CurrentOptions(w'), hash);
    }
  }

  /** With nothing in flight and nothing given up, under the assumptions of the conservation law, the
      Redis total over the options the document now has is the number of stored votes. */
  lemma QuiescentTotalsAgree(w: World, moves: seq<Move>)
    requires Fresh(w) && IsCourse(w, moves)
    ensures var w' := Course(w, moves);
      w.votes.opts != [] && AssumedRun(w.votes, Shares(w, moves)) && IsQuiescent(w'.votes) ==>
        && (forall o :: o in CurrentOptions(w') ==> Get(w'.votes.hash, o) == Tally(w'.votes.votes, w'.votes.poll, o))
        && SumOver(w'.votes.hash, CurrentOptions(w')) == PollTotal(w'.votes.votes, w'.votes.poll)
  {
    var w' := Course(w, moves);
    if w.votes.opts != [] && AssumedRun(w.votes, Shares(w, moves)) && IsQuiescent(w'.votes) {
      SharesAreARun(w, moves);
      QuiescentRedisEqualsMongo(w.votes, Shares(w, moves));
      InitHolds(w.votes);
      LogInvRun(w.votes, Shares(w, moves));
      SameOptions(CurrentOptions(w'), w'.votes.opts);
      TotalsAgreeThroughout(w, moves, w'.votes.hash);
    }
  }

  /** The counters exist, and no stored vote is on its way to them or was given up. */
  ghost predicate IsQuiescent(s: State) {
    s.hash != map[] && forall r :: r in s.reqs ==> !s.reqs[r].pc.Inserted? && !s.reqs[r].pc.GaveUp?
  }

  /** Once the stored document is closed or deleted, and until its creator asks to re-open it, every
      vote that is still stored belongs to a request that had loaded the poll before. */
  lemma LateVotesHadLoadedTheOpenPoll(w: World, moves: seq<Move>)
    requires Coupled(w) && IsCourse(w, moves)
    requires w.store.docs[w.votes.poll].status == PollValidation.Closed || w.store.docs[w.votes.poll].deleted
    requires forall move :: move in moves ==> !IsReopening(w, move)
    ensures var s' := Course(w, moves).votes;
      && w.votes.votes <= s'.votes
      && (forall i :: |w.votes.votes| <= i < |s'.votes| ==> s'.votes[i].id in Admitted(w.votes))
  {
    SharesAreARun(w, moves);
    NoReopenInShares(w, moves);
    LateVotesWereAdmitted(w.votes, Shares(w, moves));
  }

  lemma CreatorStays(w: World, op: Op)
    requires Coupled(w) && Possible(w, Admin(op))
    ensures var w' := Next(w, Admin(op));
      w'.votes.poll == w.votes.poll && w.votes.poll in w'.store.docs
      && w'.store.docs[w.votes.poll].creator == w.store.docs[w.votes.poll].creator
  {
    StatusStepIsRun(w, op);
    KeepsStep(w.store, op, w.votes.poll);
  }

  lemma {:induction false} NoReopenInShares(w: World, moves: seq<Move>)
    requires Coupled(w) && IsCourse(w, moves)
    requires forall move :: move in moves ==> !IsReopening(w, move)
    ensures Reopen !in Shares(w, moves)
    decreases |moves|
  {
    if moves != [] {
      assert moves[0] in moves && forall m :: m in moves[1..] ==> m in moves;
      CoupledStep(w, moves[0]);
      ShareIsRun(w, moves[0]);
      if moves[0].Admin? {
        CreatorStays(w, moves[0].op);
        if Reopen in StatusStep(w, moves[0].op) {
          ReopeningIsAsked(w, moves[0].op);
        }
      }
      NoReopenInShares(Next(w, moves[0]), moves[1..]);
      assert Shares(w, moves) == Share(w, moves[0]) + Shares(Next(w, moves[0]), moves[1..]);
    }
  }
}
