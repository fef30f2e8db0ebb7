/** `CastVote` and `GetResults` of one caller at a time, over the mutable stores. */
module VoteService {
  import opened Common
  import opened Text
  import opened VoteLog
  import opened VoteStore
  import opened PollValidation
  import opened PollLifecycle
  import opened PollService
  import opened Results

  datatype CastError = BadInput | PollMissing | PollIsClosed | PollExpired | InvalidOption | AlreadyVoted | StoreDown

  /** Which store calls of a request fail; the first `increments` attempts to count the vote do, and
      the caller's context ends once `cancelAfter` of them have; an initialising pipeline that fails
      has carried out its first `initDone` commands. */
  datatype Faults = Faults(
    find: bool, lookup: bool, check: bool, counts: bool, init: bool, initDone: nat, create: bool,
    increments: nat, cancelAfter: nat, total: bool, publish: bool)

  /** An increment is retried up to three times, unless the context ends while waiting. */
  predicate Counted(f: Faults) {
    f.increments == 0 || (f.increments < MAX_INCREMENT_ATTEMPTS && f.increments < f.cancelAfter)
  }

  function OptionIds(doc: PollDoc): seq<string> {
    Ids(doc.options)
  }

  /** The first check that turns the vote away before anything is written, if any. */
  ghost function Refusal(docs: map<string, PollDoc>, votes: seq<Vote>, p: string, o: string, v: string, now: int,
      f: Faults): Option<CastError>
  {
    if p == "" || o == "" || v == "" then Some(BadInput)
    else if ParseObjectID(p).None? then Some(PollMissing)
    else if f.find then Some(StoreDown)
    else
      match Find(docs, p)
      case None => Some(PollMissing)
      case Some(doc) =>
        if doc.status == Closed then Some(PollIsClosed)
        else if doc.expiresAt.Some? && now > doc.expiresAt.value then Some(PollExpired)
        else if o !in OptionIds(doc) then Some(InvalidOption)
        else if f.lookup then Some(StoreDown)
        else if HasVoted(votes, p, v) then Some(AlreadyVoted)
        else None
  }

  // ----- what each answer means -----

  lemma ListsOption(doc: PollDoc, o: string)
    ensures o in OptionIds(doc) <==> exists i :: 0 <= i < |doc.options| && doc.options[i].id == o
  {
    if i :| 0 <= i < |doc.options| && doc.options[i].id == o {
      assert OptionIds(doc)[i] == o;
    }
  }

  /** An input is missing. */
  lemma BadInputIff(docs: map<string, PollDoc>, votes: seq<Vote>, p: string, o: string, v: string,
      now: int, f: Faults)
    ensures Refusal(docs, votes, p, o, v, now, f) == Some(BadInput)
      <==> p == "" || o == "" || v == ""
  {
  }

  /** The ID is malformed, or there is no such poll, or it is deleted. */
  lemma PollMissingIff(docs: map<string, PollDoc>, votes: seq<Vote>, p: string, o: string, v: string,
      now: int, f: Faults)
    ensures Refusal(docs, votes, p, o, v, now, f) == Some(PollMissing)
      <==> (p != "" && o != "" && v != ""
          && (ParseObjectID(p).None?
              || (!f.find && (ParseObjectID(p).value !in docs || docs[ParseObjectID(p).value].deleted))))
  {
  }

  /** The poll is closed. */
  lemma PollIsClosedIff(docs: map<string, PollDoc>, votes: seq<Vote>, p: string, o: string, v: string,
      now: int, f: Faults)
    ensures Refusal(docs, votes, p, o, v, now, f) == Some(PollIsClosed)
      <==> (p != "" && o != "" && v != "" && !f.find && ParseObjectID(p).Some? && ParseObjectID(p).value in docs
          && var doc := docs[ParseObjectID(p).value];
             !doc.deleted && doc.status == Closed)
  {
  }

  /** The poll is open, and its deadline has passed. */
  lemma PollExpiredIff(docs: map<string, PollDoc>, votes: seq<Vote>, p: string, o: string, v: string,
      now: int, f: Faults)
    ensures Refusal(docs, votes, p, o, v, now, f) == Some(PollExpired)
      <==> (p != "" && o != "" && v != "" && !f.find && ParseObjectID(p).Some? && ParseObjectID(p).value in docs
          && var doc := docs[ParseObjectID(p).value];
             !doc.deleted && doc.status == Active && doc.expiresAt.Some? && now > doc.expiresAt.value)
  {
  }

  /** The poll takes votes, but not for this option. */
  lemma InvalidOptionIff(docs: map<string, PollDoc>, votes: seq<Vote>, p: string, o: string, v: string,
      now: int, f: Faults)
    ensures Refusal(docs, votes, p, o, v, now, f) == Some(InvalidOption)
      <==> (p != "" && o != "" && v != "" && !f.find && ParseObjectID(p).Some? && ParseObjectID(p).value in docs
          && var doc := docs[ParseObjectID(p).value];
             && !doc.deleted && doc.status == Active && (doc.expiresAt.None? || now <= doc.expiresAt.value)
             && forall i :: 0 <= i < |doc.options| ==> doc.options[i].id != o)
  {
    if Find(docs, p).Some? {
      ListsOption(Find(docs, p).value, o);
    }
  }

  /** The option is good, and the voter has a vote in the poll. */
  lemma AlreadyVotedIff(docs: map<string, PollDoc>, votes: seq<Vote>, p: string, o: string, v: string,
      now: int, f: Faults)
    ensures Refusal(docs, votes, p, o, v, now, f) == Some(AlreadyVoted)
      <==> (p != "" && o != "" && v != "" && !f.find && ParseObjectID(p).Some? && ParseObjectID(p).value in docs
          && var doc := docs[ParseObjectID(p).value];
             && !doc.deleted && doc.status == Active && (doc.expiresAt.None? || now <= doc.expiresAt.value)
             && (exists i :: 0 <= i < |doc.options| && doc.options[i].id == o)
             && !f.lookup && exists w :: w in votes && w.poll == p && w.voter == v)
  {
    if Find(docs, p).Some? {
      ListsOption(Find(docs, p).value, o);
    }
  }

  /** The lookup of the poll fails, or, for a vote that would pass, that of earlier votes. */
  lemma StoreDownIff(docs: map<string, PollDoc>, votes: seq<Vote>, p: string, o: string, v: string,
      now: int, f: Faults)
    ensures Refusal(docs, votes, p, o, v, now, f) == Some(StoreDown)
      <==> (p != "" && o != "" && v != "" && ParseObjectID(p).Some?
          && (f.find
              || (f.lookup && ParseObjectID(p).value in docs
                  && var doc := docs[ParseObjectID(p).value];
                  && !doc.deleted && doc.status == Active && (doc.expiresAt.None? || now <= doc.expiresAt.value)
                  && (exists i :: 0 <= i < |doc.options| && doc.options[i].id == o))))
  {
    if Find(docs, p).Some? {
      ListsOption(Find(docs, p).value, o);
    }
  }

  /** No check refuses the vote. */
  lemma PassesIff(docs: map<string, PollDoc>, votes: seq<Vote>, p: string, o: string, v: string,
      now: int, f: Faults)
    ensures Refusal(docs, votes, p, o, v, now, f) == None
      <==> (p != "" && o != "" && v != "" && !f.find && ParseObjectID(p).Some? && ParseObjectID(p).value in docs
          && var doc := docs[ParseObjectID(p).value];
             && !doc.deleted && doc.status == Active && (doc.expiresAt.None? || now <= doc.expiresAt.value)
             && (exists i :: 0 <= i < |doc.options| && doc.options[i].id == o)
             && !f.lookup && !(exists w :: w in votes && w.poll == p && w.voter == v))
  {
    if Find(docs, p).Some? {
      ListsOption(Find(docs, p).value, o);
    }
  }

  /** A poll just created takes a first vote of anybody for any of its options, until its deadline. */
  lemma NewPollTakesVotes(st: Store, op: Op, votes: seq<Vote>, i: nat, v: string, now: int, f: Faults)
    requires op.Create? && FreshIds(st, op) && Exec(st, op).1.Ok?
    requires i < |op.optionIds| && op.optionIds[i] != "" && v != "" && !f.find && !f.lookup
    ensures Refusal(Exec(st, op).0.docs, votes, op.newId, op.optionIds[i], v, now, f) ==
      if op.req.expiresAt.Some? && now > op.req.expiresAt.value then Some(PollExpired)
      else if HasVoted(votes, op.newId, v) then Some(AlreadyVoted)
      else None
  {
    var docs, p, o := Exec(st, op).0.docs, op.newId, op.optionIds[i];
    assert docs[p].options[i].id == o;
    PassesIff(docs, votes, p, o, v, now, f);
    PollExpiredIff(docs, votes, p, o, v, now, f);
    AlreadyVotedIff(docs, votes, p, o, v, now, f);
  }

  /** A successful close, and a successful deletion, turn every later vote away, however the poll's ID
      is spelled. */
  lemma NoVotesAfterTheEnd(st: Store, op: Op, votes: seq<Vote>, p: string, o: string, v: string, now: int, f: Faults)
    requires StoreInv(st) && ((op.SetStatus? && op.status == Some(Closed)) || op.Delete?) && Exec(st, op).1.Ok?
    requires ParseObjectID(p) == ParseObjectID(TrimSpace(op.pollId)) && o != "" && v != "" && !f.find
    ensures Refusal(Exec(st, op).0.docs, votes, p, o, v, now, f)
      == Some(if op.Delete? then PollMissing else PollIsClosed)
  {
    OwnerEffect(st, op);
    assert p != "";
  }

  /** The counter hash that ensureRedisInitialized leaves behind. */
  function Ensured(h: map<string, nat>, opts: seq<string>, votes: seq<Vote>, key: string, f: Faults): map<string, nat> {
    if !f.check && h != map[] then h
    else
      InitHash(h, opts[..Completed(f.init, f.initDone, |opts|)], if f.counts then map[] else CountsByOption(votes, key))
  }

  /** Counters that are there and can be checked stay as they are. Otherwise each option's counter
      that is missing, as far as the pipeline got, is set to its stored votes, or to zero if these
      could not be read; none that exists is changed. */
  lemma EnsuredMeans(h: map<string, nat>, opts: seq<string>, votes: seq<Vote>, key: string, f: Faults)
    ensures var e := Ensured(h, opts, votes, key, f);
      var reached := if f.init && f.initDone < |opts| then opts[..f.initDone] else opts;
      && (!f.check && h != map[] ==> e == h)
      && (forall o :: o in e <==> o in h || ((f.check || h == map[]) && o in reached))
      && (forall o :: o in e ==> e[o] == if o in h then h[o] else if f.counts then 0 else Tally(votes, key, o))
  {
    var reached := opts[..Completed(f.init, f.initDone, |opts|)];
    var counts := if f.counts then map[] else CountsByOption(votes, key);
    InitHashEffect(h, reached, counts);
    assert opts[..|opts|] == opts;
    forall o ensures Get(CountsByOption(votes, key), o) == Tally(votes, key, o) {
      CountsAreTallies(votes, key, o);
    }
  }

  /** One option of a results response; the percentage is in hundredths. */
  datatype OptionResult = OptionResult(id: string, text: string, votes: nat, percentage: nat)

  datatype ResultsResponse = ResultsResponse(poll: string, total: nat, results: seq<OptionResult>)

  function VotesIn(results: seq<OptionResult>): seq<nat> {
    seq(|results|, i requires 0 <= i < |results| => results[i].votes)
  }

  function PercentagesIn(results: seq<OptionResult>): seq<nat> {
    seq(|results|, i requires 0 <= i < |results| => results[i].percentage)
  }

  /** The rows a response must have for a poll, given the counts and total it was computed from. */
  ghost predicate ReportsOn(resp: ResultsResponse, doc: PollDoc, m: map<string, nat>) {
    && |resp.results| == |doc.options|
    && forall i :: 0 <= i < |doc.options| ==>
        resp.results[i] == OptionResult(doc.options[i].id, doc.options[i].text, Get(m, doc.options[i].id),
                                        Hundredths(Get(m, doc.options[i].id), resp.total))
  }

  lemma {:induction false} ListedCountsAdd(m: map<string, nat>, keys: seq<string>)
    ensures SumNat(seq(|keys|, i requires 0 <= i < |keys| => Get(m, keys[i]))) == SumOver(m, keys)
  {
    var xs := seq(|keys|, i requires 0 <= i < |keys| => Get(m, keys[i]));
    if keys != [] {
      var front := keys[..|keys| - 1];
      ListedCountsAdd(m, front);
      assert xs[..|keys| - 1] == seq(|front|, i requires 0 <= i < |front| => Get(m, front[i]));
    }
  }

  /** In a response with votes whose total covers the listed counts, every share is between 0% and
      100%, and the shares add up to that of the listed counts within half a hundredth per option;
      so to 100% when, as from Redis, the total is their sum. */
  lemma ResponsePercentages(resp: ResultsResponse, doc: PollDoc, m: map<string, nat>)
    requires ReportsOn(resp, doc, m) && SumOver(m, OptionIds(doc)) <= resp.total && resp.total > 0
    ensures forall i :: 0 <= i < |resp.results| ==> 0 <= resp.results[i].percentage <= 10000
    ensures var n, sum := |doc.options|, SumNat(PercentagesIn(resp.results));
      && -(resp.total * n) <= resp.total * (2 * sum) - 20000 * SumOver(m, OptionIds(doc)) <= resp.total * n
      && (SumOver(m, OptionIds(doc)) == resp.total ==> -n <= 2 * (sum - 10000) <= n)
  {
    var ids := OptionIds(doc);
    forall i | 0 <= i < |resp.results| ensures 0 <= resp.results[i].percentage <= 10000 {
      assert ids[i] in ids;
      SumOverBoundsEach(m, ids, ids[i]);
      HundredthsInRange(resp.results[i].votes, resp.total);
    }
    ListedCountsAdd(m, ids);
    assert VotesIn(resp.results) == seq(|ids|, i requires 0 <= i < |ids| => Get(m, ids[i]));
    assert PercentagesIn(resp.results) == Shares(VotesIn(resp.results), resp.total);
    RoundingErrorsAdd(VotesIn(resp.results), resp.total);
    if SumOver(m, ids) == resp.total {
      SharesAddUpToTheWhole(VotesIn(resp.results), resp.total);
    }
  }

  /** The MongoDB fallback: its total covers the listed tallies, and is their sum exactly when every
      stored vote names a listed option. */
  lemma FallbackTotalCovers(votes: seq<Vote>, doc: PollDoc, p: string)
    requires Distinct(OptionIds(doc))
    ensures SumOver(CountsByOption(votes, p), OptionIds(doc)) <= PollTotal(votes, p)
    ensures SumOver(CountsByOption(votes, p), OptionIds(doc)) == PollTotal(votes, p)
       <==> forall v :: v in votes && v.poll == p ==> v.option in OptionIds(doc)
  {
    forall o | o in OptionIds(doc) ensures Get(CountsByOption(votes, p), o) == Tally(votes, p, o) {
      CountsAreTallies(votes, p, o);
    }
    TalliesSumToListed(votes, p, OptionIds(doc), CountsByOption(votes, p));
    ListedVotesAreAll(votes, p, OptionIds(doc));
  }

  /** The votes of a poll whose option is in a set. */
  ghost function VotesFor(votes: seq<Vote>, poll: string, s: set<string>): nat {
    if votes == [] then 0
    else
      var v := votes[|votes| - 1];
      VotesFor(votes[..|votes| - 1], poll, s) + (if v.poll == poll && v.option in s then 1 else 0)
  }

  lemma {:induction false} VotesForAdd(votes: seq<Vote>, poll: string, s: set<string>, o: string)
    requires o !in s
    ensures VotesFor(votes, poll, s + {o}) == VotesFor(votes, poll, s) + Tally(votes, poll, o)
  {
    if votes != [] {
      VotesForAdd(votes[..|votes| - 1], poll, s, o);
    }
  }

  lemma {:induction false} VotesForAll(votes: seq<Vote>, poll: string, s: set<string>)
    requires forall v :: v in votes && v.poll == poll ==> v.option in s
    ensures VotesFor(votes, poll, s) == PollTotal(votes, poll)
  {
    if votes != [] {
      VotesForAll(votes[..|votes| - 1], poll, s);
    }
  }

  lemma {:induction false} VotesForNone(votes: seq<Vote>, poll: string)
    ensures VotesFor(votes, poll, {}) == 0
  {
    if votes != [] {
      VotesForNone(votes[..|votes| - 1], poll);
    }
  }

  lemma {:induction false} VotedOptionHasTally(votes: seq<Vote>, v: Vote)
    requires v in votes
    ensures Tally(votes, v.poll, v.option) > 0
  {
    var last := votes[|votes| - 1];
    if last != v {
      VotedOptionHasTally(votes[..|votes| - 1], v);
    }
  }

  /** CastVote counts under the caller's spelling of the poll ID, and initialises under the canonical
      one. They are the same key exactly when the caller's spelling is in lower case. */
  lemma CountedKeyIsInitialisedKeyIff(docs: map<string, PollDoc>, p: string)
    requires StoreInv(Store(docs, [])) && Find(docs, p).Some?
    ensures Find(docs, p).value.id == p <==> p == ToLower(p)
  {
    FindIsOwn(Store(docs, []), p);
  }

  /** The log is keyed by the caller's spelling too: a vote stored under the canonical ID is found by
      a later duplicate check exactly when that call spells the ID in lower case. */
  lemma EarlierVoteIsFoundIff(docs: map<string, PollDoc>, votes: seq<Vote>, p: string, voter: string)
    requires StoreInv(Store(docs, [])) && Find(docs, p).Some?
    requires HasVoted(votes, Find(docs, p).value.id, voter)
    requires forall w :: w in votes ==> w.poll == ToLower(w.poll)
    ensures HasVoted(votes, p, voter) <==> p == ToLower(p)
  {
    CountedKeyIsInitialisedKeyIff(docs, p);
  }

  /** So a second vote in an open poll is refused as a duplicate exactly when it spells the ID in
      lower case; otherwise it passes every check. */
  lemma SecondVoteIsRefusedIff(docs: map<string, PollDoc>, votes: seq<Vote>, p: string, o: string, v: string,
      now: int, f: Faults)
    requires StoreInv(Store(docs, [])) && Find(docs, p).Some? && !f.find && !f.lookup && o != "" && v != ""
    requires var doc := Find(docs, p).value;
      && doc.status == Active && (doc.expiresAt.Some? ==> now <= doc.expiresAt.value)
      && o in OptionIds(doc) && HasVoted(votes, doc.id, v)
    requires forall w :: w in votes ==> w.poll == ToLower(w.poll)
    ensures Refusal(docs, votes, p, o, v, now, f) == if p == ToLower(p) then Some(AlreadyVoted) else None
  {
    EarlierVoteIsFoundIff(docs, votes, p, v);
  }

  const UPPER_CASE_ID: string := ['A'] + seq(23, _ => 'a')

  /** A poll ID with one upper-case letter, under which the voter of the poll's one vote passes again. */
  lemma UpperCaseVotesAgain(f: Faults)
    requires !f.find && !f.lookup
    ensures var docs, votes := map[EXAMPLE_ID := EXAMPLE_POLL], [Vote(0, EXAMPLE_ID, "b", "v")];
      && Refusal(docs, votes, EXAMPLE_ID, "c", "v", 0, f) == Some(AlreadyVoted)
      && Refusal(docs, votes, UPPER_CASE_ID, "c", "v", 0, f) == None
  {
    var docs, votes := map[EXAMPLE_ID := EXAMPLE_POLL], [Vote(0, EXAMPLE_ID, "b", "v")];
    ExampleStoreHolds();
    assert ToLower(EXAMPLE_ID) == EXAMPLE_ID && ToLower(UPPER_CASE_ID) == EXAMPLE_ID;
    assert UPPER_CASE_ID[0] != EXAMPLE_ID[0];
    assert OptionIds(EXAMPLE_POLL)[1] == "c";
    assert votes[0] in votes;
    SecondVoteIsRefusedIff(docs, votes, EXAMPLE_ID, "c", "v", 0, f);
    SecondVoteIsRefusedIff(docs, votes, UPPER_CASE_ID, "c", "v", 0, f);
  }

  /** The contents of both vote stores. */
  datatype Ledger = Ledger(votes: seq<Vote>, hashes: map<string, map<string, nat>>, published: seq<Frame>) {
    function Hash(key: string): map<string, nat> {
      HashAt(hashes, key)
    }
  }

  /** What a vote that passed its checks makes of the stores: the counters under the canonical ID
      are ensured; unless the insert fails or the index refuses it, the vote is stored, counted
      under its own spelling of the ID, and published. */
  ghost predicate Recorded(a: Ledger, b: Ledger, doc: PollDoc, vote: Vote, f: Faults) {
    var ensured := Ensured(a.Hash(doc.id), OptionIds(doc), a.votes, doc.id, f);
    var base := if vote.poll == doc.id then ensured else a.Hash(vote.poll);
    var stored := !f.create && !HasVoted(a.votes, vote.poll, vote.voter);
    var counted := stored && Counted(f);
    && b.votes == (if stored then a.votes + [vote] else a.votes)
    && b.Hash(vote.poll) == (if counted then HIncrBy(base, vote.option) else base)
    && (vote.poll != doc.id ==> b.Hash(doc.id) == ensured)
    && (forall key :: key != vote.poll && key != doc.id ==> b.Hash(key) == a.Hash(key))
    && (if counted && !f.publish then
          var total := if f.total then b.Hash(vote.poll)[vote.option] else SumOver(b.Hash(vote.poll), OptionIds(doc));
          b.published == a.published + [VoteUpdate(vote.poll, vote.option, b.Hash(vote.poll)[vote.option], Some(total))]
        else b.published == a.published)
  }

  /** What that means in each store: the vote is appended unless the insert fails or the voter has
      one; it is counted exactly if it was stored and one of three attempts got through; and then
      one event, unless its publication fails, carries the counter and the total. */
  lemma RecordedMeans(a: Ledger, b: Ledger, doc: PollDoc, vote: Vote, f: Faults)
    requires Recorded(a, b, doc, vote, f)
    ensures var stored := !f.create && !exists w :: w in a.votes && w.poll == vote.poll && w.voter == vote.voter;
      var counted := stored && (f.increments == 0 || (f.increments < 3 && f.increments < f.cancelAfter));
      && b.votes == (if stored then a.votes + [vote] else a.votes)
      && (vote.poll != doc.id || (a.Hash(doc.id) != map[] && !f.check) ==>
            forall o :: Get(b.Hash(vote.poll), o)
              == Get(a.Hash(vote.poll), o) + if counted && o == vote.option then 1 else 0)
      && (forall key :: key != vote.poll && key != doc.id ==> b.Hash(key) == a.Hash(key))
      && var count := Get(b.Hash(vote.poll), vote.option);
         var total := if f.total then count else SumOver(b.Hash(vote.poll), OptionIds(doc));
         b.published == a.published
           + if counted && !f.publish then [VoteUpdate(vote.poll, vote.option, count, Some(total))] else []
  {
  }

  /** And when nothing fails, a vote under the poll's own ID leaves counters that equal the stored
      votes of every option, if they were missing, and otherwise one more for its own. */
  lemma UndisturbedVoteIsCounted(a: Ledger, b: Ledger, doc: PollDoc, vote: Vote, f: Faults, o: string)
    requires Recorded(a, b, doc, vote, f) && vote.poll == doc.id && o in OptionIds(doc)
    requires !f.check && !f.counts && !f.init && !f.create && f.increments == 0
    requires !HasVoted(a.votes, vote.poll, vote.voter)
    ensures b.votes == a.votes + [vote]
    ensures Get(b.Hash(doc.id), o) ==
      if a.Hash(doc.id) == map[] then Tally(b.votes, doc.id, o)
      else Get(a.Hash(doc.id), o) + if o == vote.option then 1 else 0
  {
    EnsuredMeans(a.Hash(doc.id), OptionIds(doc), a.votes, doc.id, f);
    TallyAppend(a.votes, vote, doc.id, o);
  }

  /** What a voter is told about a stored vote. */
  datatype Receipt = Receipt(poll: string, option: string, voter: string)

  class VoteService {
    const polls: PollRepository
    const votes: VoteRepository
    const redis: CounterStore

    constructor (polls: PollRepository, votes: VoteRepository, redis: CounterStore)
      ensures this.polls == polls && this.votes == votes && this.redis == redis
    {
      this.polls, this.votes, this.redis := polls, votes, redis;
    }

    method EnsureRedisInitialized(key: string, opts: seq<string>, f: Faults)
      modifies redis`hashes
      ensures redis.Hash(key) == Ensured(old(redis.Hash(key)), opts, votes.votes, key, f)
      ensures forall p :: p != key ==> redis.Hash(p) == old(redis.Hash(p))
    {
      var has := redis.HasCounters(key, f.check);
      if has.Ok? && has.value {
        return;
      }
      var durable := votes.GetVoteCountsByPoll(key, f.counts);
      var counts := if durable.Ok? then durable.value else map[];
      ghost var written := opts[..Completed(f.init, f.initDone, |opts|)];
      forall o | o in written && !f.counts ensures Get(counts, o) == Get(CountsByOption(votes.votes, key), o) {
        CountsAreTallies(votes.votes, key, o);
      }
      InitHashReads(redis.Hash(key), written, counts, if f.counts then map[] else CountsByOption(votes.votes, key));
      var _ := redis.InitializeCounters(key, opts, counts, f.init, f.initDone);
    }

    /** Counts a vote once or not at all, however many attempts it takes. */
    method IncrementRedisWithRetry(poll: string, option: string, f: Faults) returns (r: Result<nat, StoreError>)
      modifies redis`hashes
      ensures r.Ok? <==> Counted(f)
      ensures r.Ok? <==> f.increments == 0 || (f.increments < 3 && f.increments < f.cancelAfter)
      ensures r.Ok? ==>
        && redis.hashes == old(redis.hashes)[poll := HIncrBy(old(redis.Hash(poll)), option)]
        && r.value == Get(old(redis.Hash(poll)), option) + 1
      ensures r.Err? ==> redis.hashes == old(redis.hashes)
    {
      r := Err(Unavailable);
      var attempt := 1;
      while attempt <= MAX_INCREMENT_ATTEMPTS
        invariant 1 <= attempt <= MAX_INCREMENT_ATTEMPTS + 1
        invariant redis.hashes == old(redis.hashes) && r.Err?
        invariant attempt > 1 ==> f.increments >= attempt - 1 && attempt - 1 < f.cancelAfter
      {
        r := redis.IncrementVote(poll, option, attempt <= f.increments);
        if r.Ok? {
          return;
        }
        if attempt >= f.cancelAfter {
          return;
        }
        attempt := attempt + 1;
      }
    }

    method CheckVote(p: string, o: string, v: string, now: int, f: Faults) returns (r: Result<Poll, CastError>)
      ensures match Refusal(polls.docs, votes.votes, p, o, v, now, f)
        case Some(e) => r == Err(e)
        case None => r.Ok? && fresh(r.value) && Find(polls.docs, p) == Some(r.value.Doc())
    {
      if p == "" || o == "" || v == "" {
        return Err(BadInput);
      }
      var found := polls.FindByID(p, f.find);
      if found.Err? {
        return Err(if found.error == NotFound then PollMissing else StoreDown);
      }
      var poll := found.value;
      if poll.status == Closed {
        return Err(PollIsClosed);
      }
      if poll.expiresAt.Some? && now > poll.expiresAt.value {
        return Err(PollExpired);
      }
      var optionFound := HasOption(poll.options, o);
      if !optionFound {
        return Err(InvalidOption);
      }
      var voted := votes.HasVotedBefore(p, v, f.lookup);
      if voted.Err? {
        return Err(StoreDown);
      }
      if voted.value {
        return Err(AlreadyVoted);
      }
      return Ok(poll);
    }

    /** Counts a stored vote and publishes what the counter then showed; failures are only logged. */
    method CountAndPublish(p: string, o: string, opts: seq<string>, f: Faults)
      modifies redis
      ensures forall q :: q != p ==> redis.Hash(q) == old(redis.Hash(q))
      ensures redis.Hash(p) == if Counted(f) then HIncrBy(old(redis.Hash(p)), o) else old(redis.Hash(p))
      ensures redis.published == old(redis.published) +
        (if Counted(f) && !f.publish
         then [VoteUpdate(p, o, redis.Hash(p)[o],
                          Some(if f.total then redis.Hash(p)[o] else SumOver(redis.Hash(p), opts)))]
         else [])
    {
      var count := IncrementRedisWithRetry(p, o, f);
      if count.Ok? {
        var totals := redis.GetOptionCounts(p, opts, f.total);
        var total := if totals.Ok? then totals.value.1 else count.value;
        var _ := redis.Publish(VoteUpdate(p, o, count.value, Some(total)), f.publish);
      }
    }

    ghost function State(): Ledger
      reads votes, redis
    {
      Ledger(votes.votes, redis.hashes, redis.published)
    }

    /** Accepts a vote exactly when no check refuses it and it can be stored; then it is stored
        once, counted at most once on top of the ensured counters, and published as counted. */
    method CastVote(pollID: string, optionID: string, voterID: string, now: int, newId: nat, f: Faults)
      returns (r: Result<Receipt, CastError>)
      requires votes.Valid()
      modifies votes, redis
      ensures votes.Valid()
      ensures var p, o, v := TrimSpace(pollID), TrimSpace(optionID), TrimSpace(voterID);
        match Refusal(polls.docs, old(votes.votes), p, o, v, now, f)
        case Some(e) => r == Err(e) && State() == old(State())
        case None =>
          && r == (if f.create then Err(StoreDown) else Ok(Receipt(p, o, v)))
          && Recorded(old(State()), State(), Find(polls.docs, p).value, Vote(newId, p, o, v), f)
      ensures var p, o, v := TrimSpace(pollID), TrimSpace(optionID), TrimSpace(voterID);
        r.Ok? <==> (p != "" && o != "" && v != "" && !f.find
          && ParseObjectID(p).Some? && ParseObjectID(p).value in polls.docs
          && var doc := polls.docs[ParseObjectID(p).value];
             && !doc.deleted && doc.status == Active && (doc.expiresAt.None? || now <= doc.expiresAt.value)
             && (exists i :: 0 <= i < |doc.options| && doc.options[i].id == o)
             && !f.lookup && !(exists w :: w in old(votes.votes) && w.poll == p && w.voter == v)
             && !f.create)
      ensures votes.votes == old(votes.votes) +
        if r.Ok? then [Vote(newId, TrimSpace(pollID), TrimSpace(optionID), TrimSpace(voterID))] else []
    {
      var p, o, v := TrimSpace(pollID), TrimSpace(optionID), TrimSpace(voterID);
      PassesIff(polls.docs, votes.votes, p, o, v, now, f);
      var checked := CheckVote(p, o, v, now, f);
      if checked.Err? {
        return Err(checked.error);
      }
      r := RecordVote(checked.value, Vote(newId, p, o, v), f);
    }

    /** What follows the checks: initialise, store, count, publish. */
    method RecordVote(poll: Poll, vote: Vote, f: Faults) returns (r: Result<Receipt, CastError>)
      requires votes.Valid()
      modifies votes, redis
      ensures votes.Valid()
      ensures r == if f.create then Err(StoreDown)
                   else if HasVoted(old(votes.votes), vote.poll, vote.voter) then Err(AlreadyVoted)
                   else Ok(Receipt(vote.poll, vote.option, vote.voter))
      ensures Recorded(old(State()), State(), poll.Doc(), vote, f)
    {
      assert forall key :: State().Hash(key) == redis.Hash(key);
      EnsureRedisInitialized(poll.id, Ids(poll.options), f);
      assert forall key :: State().Hash(key) == redis.Hash(key);
      var created := votes.Create(vote, f.create);
      if created.Err? {
        return Err(if created.error == DuplicateVote then AlreadyVoted else StoreDown);
      }
      CountAndPublish(vote.poll, vote.option, Ids(poll.options), f);
      assert forall key :: State().Hash(key) == redis.Hash(key);
      return Ok(Receipt(vote.poll, vote.option, vote.voter));
    }

    /** The sum over the groups of the aggregation, in whatever order they are visited. */
    method SumCounts(counts: map<string, nat>, poll: string) returns (total: nat)
      requires forall o :: Get(counts, o) == Tally(votes.votes, poll, o)
      requires forall o :: o in counts <==> Tally(votes.votes, poll, o) > 0
      ensures total == PollTotal(votes.votes, poll)
    {
      total := 0;
      var rest := counts.Keys;
      ghost var done: set<string> := {};
      VotesForNone(votes.votes, poll);
      while rest != {}
        invariant done + rest == counts.Keys && done !! rest
        invariant total == VotesFor(votes.votes, poll, done)
        decreases rest
      {
        var o :| o in rest;
        VotesForAdd(votes.votes, poll, done, o);
        total := total + counts[o];
        done, rest := done + {o}, rest - {o};
      }
      forall v | v in votes.votes && v.poll == poll ensures v.option in done {
        VotedOptionHasTally(votes.votes, v);
      }
      VotesForAll(votes.votes, poll, done);
    }

    ghost function Source(p: string, f: Faults): map<string, nat>
      reads votes, redis
    {
      if f.total then CountsByOption(votes.votes, p) else redis.Hash(p)
    }

    method LiveOrDurable(p: string, opts: seq<string>, f: Faults)
      returns (r: Result<(map<string, nat>, nat), StoreError>)
      ensures r.Err? <==> f.total && f.counts
      ensures r.Ok? ==>
        && (forall i :: 0 <= i < |opts| ==> Get(r.value.0, opts[i]) == Get(Source(p, f), opts[i]))
        && (forall i :: 0 <= i < |opts| ==>
              Get(r.value.0, opts[i])
                == if f.total then Tally(votes.votes, p, opts[i]) else Get(redis.Hash(p), opts[i]))
        && r.value.1 == if f.total then PollTotal(votes.votes, p) else SumOver(redis.Hash(p), opts)
    {
      r := redis.GetOptionCounts(p, opts, f.total);
      if r.Ok? {
        forall i | 0 <= i < |opts| ensures Get(r.value.0, opts[i]) == Get(Source(p, f), opts[i]) {
          assert opts[i] in opts;
        }
        return;
      }
      var durable := votes.GetVoteCountsByPoll(p, f.counts);
      if durable.Err? {
        return Err(Unavailable);
      }
      var total := SumCounts(durable.value, p);
      forall i | 0 <= i < |opts| ensures Get(durable.value, opts[i]) == Get(Source(p, f), opts[i]) {
        CountsAreTallies(votes.votes, p, opts[i]);
      }
      return Ok((durable.value, total));
    }

    /** Reports the ensured Redis counters, or the durable tallies when Redis cannot be read. */
    method GetResults(pollID: string, f: Faults) returns (r: Result<ResultsResponse, CastError>)
      modifies redis`hashes
      ensures var p := TrimSpace(pollID);
        match Find(polls.docs, p)
        case None =>
          && r == Err(if f.find && ParseObjectID(p).Some? then StoreDown else PollMissing)
          && redis.hashes == old(redis.hashes)
        case Some(doc) =>
          if f.find then r == Err(StoreDown) && redis.hashes == old(redis.hashes)
          else
            && redis.Hash(doc.id) == Ensured(old(redis.Hash(doc.id)), OptionIds(doc), votes.votes, doc.id, f)
            && (forall q :: q != doc.id ==> redis.Hash(q) == old(redis.Hash(q)))
            && (r.Err? <==> f.total && f.counts)
            && (if r.Ok? then r.value.poll == p else r.error == StoreDown)
            && (r.Ok? && !f.total ==>
                  r.value.total == SumOver(redis.Hash(p), OptionIds(doc)) && ReportsOn(r.value, doc, redis.Hash(p)))
            && (r.Ok? && f.total ==>
                  r.value.total == PollTotal(votes.votes, p) && ReportsOn(r.value, doc, CountsByOption(votes.votes, p)))
      ensures r.Ok? ==>
        var p := TrimSpace(pollID);
        && ParseObjectID(p).Some? && ParseObjectID(p).value in polls.docs && !polls.docs[ParseObjectID(p).value].deleted
        && var opts := polls.docs[ParseObjectID(p).value].options;
        && |r.value.results| == |opts|
        && forall i | 0 <= i < |opts| ::
             var row := r.value.results[i];
             && row.id == opts[i].id && row.text == opts[i].text
             && row.votes == (if f.total then Tally(votes.votes, p, row.id) else Get(redis.Hash(p), row.id))
             && row.percentage == Hundredths(row.votes, r.value.total)
    {
      var p := TrimSpace(pollID);
      if p == "" {
        return Err(PollMissing);
      }
      var found := polls.FindByID(p, f.find);
      if found.Err? {
        return Err(if found.error == NotFound then PollMissing else StoreDown);
      }
      var poll := found.value;
      ghost var doc := poll.Doc();
      var opts := Ids(poll.options);
      EnsureRedisInitialized(poll.id, opts, f);
      var live := LiveOrDurable(p, opts, f);
      if live.Err? {
        return Err(StoreDown);
      }
      var (counts, total) := live.value;
      var results := BuildResults(poll.options, counts, total);
      forall i | 0 <= i < |opts|
        ensures Get(counts, doc.options[i].id) == Get(Source(p, f), doc.options[i].id)
        ensures results[i].votes
          == if f.total then Tally(votes.votes, p, results[i].id) else Get(redis.Hash(p), results[i].id)
      {
        assert opts[i] == doc.options[i].id;
      }
      return Ok(ResultsResponse(p, total, results));
    }

    method BuildResults(options: seq<PollOption>, counts: map<string, nat>, total: nat)
      returns (results: seq<OptionResult>)
      ensures |results| == |options|
      ensures forall i :: 0 <= i < |options| ==>
        results[i] == OptionResult(options[i].id, options[i].text, Get(counts, options[i].id),
                                   Hundredths(Get(counts, options[i].id), total))
    {
      results := [];
      for i := 0 to |options|
        invariant |results| == i
        invariant forall k :: 0 <= k < i ==>
          results[k] == OptionResult(options[k].id, options[k].text, Get(counts, options[k].id),
                                     Hundredths(Get(counts, options[k].id), total))
      {
        var v := Get(counts, options[i].id);
        var pct := 0;
        if total > 0 {
          pct := (20000 * v + total) / (2 * total);
        }
        results := results + [OptionResult(options[i].id, options[i].text, v, pct)];
      }
    }

    method HasOption(options: seq<PollOption>, id: string) returns (found: bool)
      ensures found <==> id in Ids(options)
    {
      for i := 0 to |options|
        invariant id !in Ids(options)[..i]
      {
        if options[i].id == id {
          assert Ids(options)[i] == id;
          return true;
        }
        assert Ids(options)[..i + 1] == Ids(options)[..i] + [Ids(options)[i]];
      }
      assert Ids(options)[..|options|] == Ids(options);
      found := false;
    }
  }
}
