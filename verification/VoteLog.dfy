/** The durable vote collection, the Redis counter hash, and the frames sent to viewers, as values. */
module VoteLog {
  import opened Common

  /** One stored vote. `id` stands for the ObjectID generated by the request that stores it. */
  datatype Vote = Vote(id: nat, poll: string, option: string, voter: string)

  /** How often counting a stored vote is attempted. */
  const MAX_INCREMENT_ATTEMPTS := 3

  datatype Row = Row(option: string, count: nat)

  /** A message published on a poll's channel or enqueued by the WebSocket handler. */
  datatype Frame =
    | VoteUpdate(poll: string, option: string, count: nat, newTotal: Option<nat>)
    | Snapshot(poll: string, rows: seq<Row>, total: nat)
    | PollClosed(poll: string)

  // ----- durable log -----

  ghost predicate HasVoted(votes: seq<Vote>, poll: string, voter: string) {
    exists v :: v in votes && v.poll == poll && v.voter == voter
  }

  /** The unique index on (poll_id, voter_id). */
  ghost predicate UniqueIndex(votes: seq<Vote>) {
    forall i, j :: 0 <= i < j < |votes| ==>
      votes[i].poll != votes[j].poll || votes[i].voter != votes[j].voter
  }

  function Tally(votes: seq<Vote>, poll: string, option: string): nat {
    if votes == [] then 0
    else
      var v := votes[|votes| - 1];
      Tally(votes[..|votes| - 1], poll, option) + (if v.poll == poll && v.option == option then 1 else 0)
  }

  /** The aggregation grouped by option: only options that received votes have an entry. */
  function CountsByOption(votes: seq<Vote>, poll: string): map<string, nat> {
    map v | v in votes && v.poll == poll :: v.option := Tally(votes, poll, v.option)
  }

  /** All votes of a poll, which is the sum of its groups. */
  function PollTotal(votes: seq<Vote>, poll: string): nat {
    if votes == [] then 0
    else PollTotal(votes[..|votes| - 1], poll) + (if votes[|votes| - 1].poll == poll then 1 else 0)
  }

  /** Where in the log the votes of a poll stand, and those of one option. */
  ghost function VotesAt(votes: seq<Vote>, poll: string): set<nat> {
    set i | 0 <= i < |votes| && votes[i].poll == poll
  }

  ghost function VotesForAt(votes: seq<Vote>, poll: string, option: string): set<nat> {
    set i | 0 <= i < |votes| && votes[i].poll == poll && votes[i].option == option
  }

  lemma LastVoteAt(votes: seq<Vote>, poll: string, option: string)
    requires votes != []
    ensures var n := |votes| - 1;
      && VotesAt(votes, poll) == VotesAt(votes[..n], poll) + (if votes[n].poll == poll then {n} else {})
      && VotesForAt(votes, poll, option)
           == VotesForAt(votes[..n], poll, option)
              + (if votes[n].poll == poll && votes[n].option == option then {n} else {})
  {
    assert forall i :: 0 <= i < |votes| - 1 ==> votes[i] == votes[..|votes| - 1][i];
  }

  /** The tally of an option is the number of its votes in the log, and the total that of the poll's. */
  lemma {:induction false} TalliesCountVotes(votes: seq<Vote>, poll: string, option: string)
    ensures Tally(votes, poll, option) == |VotesForAt(votes, poll, option)|
    ensures PollTotal(votes, poll) == |VotesAt(votes, poll)|
  {
    if votes == [] {
      assert VotesForAt(votes, poll, option) == {} == VotesAt(votes, poll);
    } else {
      TalliesCountVotes(votes[..|votes| - 1], poll, option);
      LastVoteAt(votes, poll, option);
    }
  }

  lemma TallyAppend(votes: seq<Vote>, v: Vote, poll: string, option: string)
    ensures Tally(votes + [v], poll, option)
         == Tally(votes, poll, option) + (if v.poll == poll && v.option == option then 1 else 0)
  {
    assert (votes + [v])[..|votes|] == votes;
  }

  lemma {:induction false} TallyZero(votes: seq<Vote>, poll: string, option: string)
    requires forall v :: v in votes && v.poll == poll ==> v.option != option
    ensures Tally(votes, poll, option) == 0
  {
    if votes != [] {
      TallyZero(votes[..|votes| - 1], poll, option);
    }
  }

  /** Reading the aggregation at any option gives its tally, absent options reading as zero. */
  lemma CountsAreTallies(votes: seq<Vote>, poll: string, option: string)
    ensures Get(CountsByOption(votes, poll), option) == Tally(votes, poll, option)
  {
    if option !in CountsByOption(votes, poll) {
      forall v | v in votes && v.poll == poll ensures v.option != option {
        assert v.option in CountsByOption(votes, poll);
      }
      TallyZero(votes, poll, option);
    }
  }

  lemma {:induction false} TallyMonotone(votes: seq<Vote>, more: seq<Vote>, poll: string, option: string)
    requires votes <= more
    ensures Tally(votes, poll, option) <= Tally(more, poll, option)
  {
    if |votes| < |more| {
      TallyMonotone(votes, more[..|more| - 1], poll, option);
    } else {
      assert votes == more;
    }
  }

  /** Votes of one poll spread over distinct listed options add up to all its votes. */
  lemma {:induction false} TalliesSumToVotes(votes: seq<Vote>, poll: string, opts: seq<string>, m: map<string, nat>)
    requires Distinct(opts)
    requires forall v :: v in votes ==> v.poll == poll && v.option in opts
    requires forall o :: o in opts ==> Get(m, o) == Tally(votes, poll, o)
    ensures SumOver(m, opts) == |votes|
  {
    if votes == [] {
      SumOverAgree(m, map[], opts);
      SumOfEmpty(opts);
    } else {
      var front, last := votes[..|votes| - 1], votes[|votes| - 1];
      var m' := map o | o in opts :: Tally(front, poll, o);
      TalliesSumToVotes(front, poll, opts, m');
      var k := last.option;
      SumOverGrow(m', m, opts, k);
    }
  }

  lemma {:induction false} SumOfEmpty(keys: seq<string>)
    ensures SumOver(map[], keys) == 0
  {
    if keys != [] {
      SumOfEmpty(keys[..|keys| - 1]);
    }
  }

  lemma {:induction false} PollTotalBound(votes: seq<Vote>, poll: string, option: string)
    ensures Tally(votes, poll, option) <= PollTotal(votes, poll) <= |votes|
  {
    if votes != [] {
      PollTotalBound(votes[..|votes| - 1], poll, option);
    }
  }

  // ----- counter hash -----

  /** HINCRBY key field 1: a missing field starts from zero. */
  function HIncrBy(h: map<string, nat>, o: string): map<string, nat> {
    h[o := Get(h, o) + 1]
  }

  /** HSETNX key field value. */
  function HSetNX(h: map<string, nat>, o: string, v: nat): map<string, nat> {
    if o in h then h else h[o := v]
  }

  /** The pipeline of HSETNX commands, one per option in order. */
  function InitHash(h: map<string, nat>, opts: seq<string>, counts: map<string, nat>): map<string, nat> {
    if opts == [] then h
    else
      var last := opts[|opts| - 1];
      HSetNX(InitHash(h, opts[..|opts| - 1], counts), last, Get(counts, last))
  }

  /** Existing fields are never overwritten, and each missing listed field gets its initial count. */
  lemma {:induction false} InitHashEffect(h: map<string, nat>, opts: seq<string>, counts: map<string, nat>)
    ensures InitHash(h, opts, counts).Keys == h.Keys + Elems(opts)
    ensures forall o :: o in InitHash(h, opts, counts) ==>
      InitHash(h, opts, counts)[o] == if o in h then h[o] else Get(counts, o)
  {
    if opts != [] {
      InitHashEffect(h, opts[..|opts| - 1], counts);
      assert Elems(opts) == Elems(opts[..|opts| - 1]) + {opts[|opts| - 1]};
    }
  }

  lemma {:induction false} InitHashReads(h: map<string, nat>, opts: seq<string>, c: map<string, nat>,
      d: map<string, nat>)
    requires forall o :: o in opts ==> Get(c, o) == Get(d, o)
    ensures InitHash(h, opts, c) == InitHash(h, opts, d)
  {
    if opts != [] {
      InitHashReads(h, opts[..|opts| - 1], c, d);
    }
  }

  /** Rows of a results response: every current option in order, absent fields reading as zero. */
  function Rows(counts: map<string, nat>, opts: seq<string>): seq<Row> {
    seq(|opts|, i requires 0 <= i < |opts| => Row(opts[i], Get(counts, opts[i])))
  }
}
