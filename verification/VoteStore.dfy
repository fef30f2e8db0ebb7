/** The vote collection and the counter store, carried out on mutable state. */
module VoteStore {
  import opened Common
  import opened VoteLog

  datatype StoreError = DuplicateVote | Unavailable

  /** The 'votes' collection with its unique index. A call told to fail changes nothing. */
  class VoteRepository {
    var votes: seq<Vote>

    ghost predicate Valid()
      reads this
    {
      UniqueIndex(votes)
    }

    constructor ()
      ensures Valid() && votes == []
    {
      votes := [];
    }

    /** Inserts the vote unless the voter already has one in the poll. */
    method Create(vote: Vote, fails: bool) returns (r: Result<(), StoreError>)
      requires Valid()
      modifies this
      ensures Valid()
      ensures r == if fails then Err(Unavailable)
                   else if HasVoted(old(votes), vote.poll, vote.voter) then Err(DuplicateVote) else Ok(())
      ensures votes == if r.Ok? then old(votes) + [vote] else old(votes)
    {
      if fails {
        return Err(Unavailable);
      }
      var voted := FindVote(vote.poll, vote.voter);
      if voted {
        return Err(DuplicateVote);
      }
      votes := votes + [vote];
      return Ok(());
    }

    /** The index lookup behind the unique constraint and the duplicate query. */
    method FindVote(poll: string, voter: string) returns (found: bool)
      ensures found <==> HasVoted(votes, poll, voter)
    {
      for i := 0 to |votes|
        invariant forall k :: 0 <= k < i ==> votes[k].poll != poll || votes[k].voter != voter
      {
        if votes[i].poll == poll && votes[i].voter == voter {
          assert votes[i] in votes;
          return true;
        }
      }
      found := false;
    }

    method HasVotedBefore(poll: string, voter: string, fails: bool) returns (r: Result<bool, StoreError>)
      ensures fails ==> r == Err(Unavailable)
      ensures !fails ==> r.Ok? && (r.value <==> HasVoted(votes, poll, voter))
    {
      if fails {
        return Err(Unavailable);
      }
      var found := FindVote(poll, voter);
      return Ok(found);
    }

    /** Groups the votes of a poll by option: an option has an entry exactly when it has votes,
        and its entry is their number. */
    method GetVoteCountsByPoll(poll: string, fails: bool) returns (r: Result<map<string, nat>, StoreError>)
      ensures fails ==> r == Err(Unavailable)
      ensures !fails ==> r.Ok?
      ensures r.Ok? ==> forall o :: Get(r.value, o) == Tally(votes, poll, o)
      ensures r.Ok? ==> forall o :: o in r.value <==> Tally(votes, poll, o) > 0
    {
      if fails {
        return Err(Unavailable);
      }
      var counts: map<string, nat> := map[];
      for i := 0 to |votes|
        invariant forall o :: Get(counts, o) == Tally(votes[..i], poll, o)
        invariant forall o :: o in counts <==> Tally(votes[..i], poll, o) > 0
      {
        assert votes[..i + 1] == votes[..i] + [votes[i]];
        forall o ensures Tally(votes[..i + 1], poll, o)
            == Tally(votes[..i], poll, o) + (if votes[i].poll == poll && votes[i].option == o then 1 else 0) {
          TallyAppend(votes[..i], votes[i], poll, o);
        }
        if votes[i].poll == poll {
          counts := counts[votes[i].option := Get(counts, votes[i].option) + 1];
        }
      }
      assert votes[..|votes|] == votes;
      return Ok(counts);
    }
  }

  /** A key without fields does not exist. */
  function HashAt(hashes: map<string, map<string, nat>>, key: string): map<string, nat> {
    if key in hashes then hashes[key] else map[]
  }

  /** How many of `n` pipelined commands were carried out. */
  function Completed(fails: bool, completed: nat, n: nat): (k: nat)
    ensures k <= n && (!fails ==> k == n)
  {
    if fails && completed < n then completed else n
  }

  /** Redis: one counter hash per key, and the messages published so far. */
  class CounterStore {
    var hashes: map<string, map<string, nat>>
    var published: seq<Frame>

    constructor ()
      ensures hashes == map[] && published == []
    {
      hashes, published := map[], [];
    }

    function Hash(poll: string): map<string, nat>
      reads this
    {
      HashAt(hashes, poll)
    }

    method IncrementVote(poll: string, option: string, fails: bool) returns (r: Result<nat, StoreError>)
      modifies this`hashes
      ensures r.Ok? <==> !fails
      ensures fails ==> hashes == old(hashes)
      ensures !fails ==>
        && hashes == old(hashes)[poll := HIncrBy(old(Hash(poll)), option)]
        && r.value == Get(old(Hash(poll)), option) + 1
    {
      if fails {
        return Err(Unavailable);
      }
      var h := HIncrBy(Hash(poll), option);
      hashes := hashes[poll := h];
      return Ok(h[option]);
    }

    /** Every listed option with its counter, or zero, and the sum over the list. */
    method GetOptionCounts(poll: string, optionIDs: seq<string>, fails: bool)
      returns (r: Result<(map<string, nat>, nat), StoreError>)
      ensures r.Ok? <==> !fails
      ensures r.Ok? ==>
        && r.value.0.Keys == Elems(optionIDs)
        && (forall o :: o in optionIDs ==> r.value.0[o] == Get(Hash(poll), o))
        && r.value.1 == SumOver(Hash(poll), optionIDs)
    {
      if fails {
        return Err(Unavailable);
      }
      var raw := Hash(poll);
      var counts: map<string, nat> := map[];
      var total := 0;
      for i := 0 to |optionIDs|
        invariant counts.Keys == Elems(optionIDs[..i])
        invariant forall o :: o in counts ==> counts[o] == Get(raw, o)
        invariant total == SumOver(raw, optionIDs[..i])
      {
        var o := optionIDs[i];
        assert optionIDs[..i + 1] == optionIDs[..i] + [o];
        assert optionIDs[..i + 1][..i] == optionIDs[..i];
        if o !in raw {
          counts := counts[o := 0];
        } else {
          counts := counts[o := raw[o]];
          total := total + raw[o];
        }
      }
      assert optionIDs[..|optionIDs|] == optionIDs;
      return Ok((counts, total));
    }

    /** One HSETNX per option, in order. A pipeline that fails may have carried out its first
        `completed` commands. */
    method InitializeCounters(poll: string, optionIDs: seq<string>, initial: map<string, nat>, fails: bool,
        completed: nat)
      returns (ok: bool)
      modifies this`hashes
      ensures ok <==> !fails
      ensures Hash(poll)
        == InitHash(old(Hash(poll)), optionIDs[..Completed(fails, completed, |optionIDs|)], initial)
      ensures forall p :: p != poll ==>
        (p in hashes <==> p in old(hashes)) && (p in hashes ==> hashes[p] == old(hashes)[p])
    {
      var n := Completed(fails, completed, |optionIDs|);
      for i := 0 to n
        invariant Hash(poll) == InitHash(old(Hash(poll)), optionIDs[..i], initial)
        invariant forall p :: p != poll ==>
          (p in hashes <==> p in old(hashes)) && (p in hashes ==> hashes[p] == old(hashes)[p])
      {
        assert optionIDs[..i + 1][..i] == optionIDs[..i];
        hashes := hashes[poll := HSetNX(Hash(poll), optionIDs[i], Get(initial, optionIDs[i]))];
      }
      ok := !fails;
    }

    method HasCounters(poll: string, fails: bool) returns (r: Result<bool, StoreError>)
      ensures fails ==> r == Err(Unavailable)
      ensures !fails ==> r == Ok(Hash(poll) != map[])
    {
      if fails {
        return Err(Unavailable);
      }
      return Ok(Hash(poll) != map[]);
    }

    method ResetCounters(poll: string, fails: bool) returns (ok: bool)
      modifies this`hashes
      ensures ok <==> !fails
      ensures hashes == if fails then old(hashes) else old(hashes) - {poll}
      ensures ok ==> Hash(poll) == map[]
    {
      if fails {
        return false;
      }
      hashes := hashes - {poll};
      ok := true;
    }

    method Publish(frame: Frame, fails: bool) returns (ok: bool)
      modifies this`published
      ensures ok <==> !fails
      ensures published == if fails then old(published) else old(published) + [frame]
    {
      if fails {
        return false;
      }
      published := published + [frame];
      ok := true;
    }
  }
}
