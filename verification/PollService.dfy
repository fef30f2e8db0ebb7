/** The poll repository and service, carried out on mutable state and proved against `Exec`. */
module PollService {
  import opened Common
  import opened Text
  import opened PollValidation
  import opened PollLifecycle

  /** The 'polls' collection. A call told to fail returns an error and changes nothing. */
  class PollRepository {
    var docs: map<string, PollDoc>

    constructor ()
      ensures docs == map[]
    {
      docs := map[];
    }

    /** Inserts under a new ID; the collection refuses one it has. */
    method Create(doc: PollDoc, fails: bool) returns (ok: bool)
      modifies this
      ensures ok <==> !fails && doc.id !in old(docs)
      ensures docs == if ok then old(docs)[doc.id := doc] else old(docs)
    {
      if fails || doc.id in docs {
        return false;
      }
      docs := docs[doc.id := doc];
      ok := true;
    }

    /** Decodes a copy of the document; a deleted one is not found. */
    method FindByID(id: string, fails: bool) returns (r: Result<Poll, PollError>)
      ensures r.Ok? <==> !fails && Find(docs, id).Some?
      ensures r.Ok? ==> fresh(r.value) && r.value.Doc() == Find(docs, id).value
      ensures r.Err? ==> r.error == if fails && ParseObjectID(id).Some? then StoreFailed else NotFound
    {
      var key := ParseObjectID(id);
      if key.None? {
        return Err(NotFound);
      }
      if fails {
        return Err(StoreFailed);
      }
      if key.value !in docs || docs[key.value].deleted {
        return Err(NotFound);
      }
      var poll := new Poll(docs[key.value]);
      return Ok(poll);
    }

    /** Writes back question, options and update time, and nothing else. */
    method Update(poll: Poll, fails: bool) returns (ok: bool)
      modifies this
      ensures ok <==> !fails && poll.id in old(docs) && !old(docs)[poll.id].deleted
      ensures ok ==> docs == old(docs)[poll.id :=
        old(docs)[poll.id].(question := poll.question, options := poll.options, updatedAt := poll.updatedAt)]
      ensures !ok ==> docs == old(docs)
    {
      if fails || poll.id !in docs || docs[poll.id].deleted {
        return false;
      }
      docs := docs[poll.id :=
        docs[poll.id].(question := poll.question, options := poll.options, updatedAt := poll.updatedAt)];
      ok := true;
    }

    /** Writes the status, then reads the document back, which can fail by itself. */
    method UpdateStatus(id: string, status: Status, now: int, fails: bool, readFails: bool)
      returns (r: Result<Poll, PollError>)
      modifies this
      ensures r.Ok? <==> !fails && !readFails && Find(old(docs), id).Some?
      ensures docs == if fails || Find(old(docs), id).None? then old(docs) else
        old(docs)[ParseObjectID(id).value := Find(old(docs), id).value.(status := status, updatedAt := now)]
      ensures r.Ok? ==>
        fresh(r.value) && r.value.Doc() == Find(old(docs), id).value.(status := status, updatedAt := now)
      ensures r.Err? && (ParseObjectID(id).None? || (!fails && Find(old(docs), id).None?)) ==> r.error == NotFound
      ensures r.Err? && ParseObjectID(id).Some? && (fails || Find(old(docs), id).Some?) ==> r.error == StoreFailed
    {
      var key := ParseObjectID(id);
      if key.None? {
        return Err(NotFound);
      }
      if fails {
        return Err(StoreFailed);
      }
      if key.value !in docs || docs[key.value].deleted {
        return Err(NotFound);
      }
      docs := docs[key.value := docs[key.value].(status := status, updatedAt := now)];
      r := FindByID(id, readFails);
    }

    method SoftDelete(id: string, now: int, fails: bool) returns (ok: bool)
      modifies this
      ensures ok <==> !fails && Find(old(docs), id).Some?
      ensures ok ==> docs == old(docs)[ParseObjectID(id).value :=
        Find(old(docs), id).value.(deleted := true, deletedAt := Some(now), updatedAt := now)]
      ensures !ok ==> docs == old(docs)
    {
      var key := ParseObjectID(id);
      if fails || key.None? || key.value !in docs || docs[key.value].deleted {
        return false;
      }
      docs := docs[key.value := docs[key.value].(deleted := true, deletedAt := Some(now), updatedAt := now)];
      ok := true;
    }
  }

  /** The service, with the poll IDs it handed to its broadcaster, once one is installed. */
  class PollService {
    const repo: PollRepository
    var hasBroadcaster: bool
    var broadcasts: seq<string>

    constructor (repo: PollRepository)
      ensures this.repo == repo && !hasBroadcaster && broadcasts == []
    {
      this.repo := repo;
      hasBroadcaster, broadcasts := false, [];
    }

    method SetBroadcaster()
      modifies this`hasBroadcaster
      ensures hasBroadcaster
    {
      hasBroadcaster := true;
    }

    ghost function State(): Store
      reads this, repo
    {
      Store(repo.docs, broadcasts)
    }

    method CreatePoll(creator: string, req: CreateRequest, now: int, newId: string, optionIds: seq<string>,
        fault: Fault)
      returns (r: Result<PollDoc, PollError>)
      requires FreshIds(State(), Op.Create(creator, req, now, newId, optionIds, fault))
      modifies repo
      ensures (State(), r) == Exec(old(State()), Op.Create(creator, req, now, newId, optionIds, fault))
      ensures r.Err? ==> repo.docs == old(repo.docs)
      ensures r.Ok? ==>
        && repo.docs == old(repo.docs)[newId := r.value] && Find(repo.docs, newId) == Some(r.value)
        && r.value.id == newId && r.value.creator == creator && r.value.question == TrimSpace(req.question)
        && r.value.status == Active && !r.value.deleted && r.value.deletedAt == None
        && r.value.expiresAt == req.expiresAt && r.value.createdAt == r.value.updatedAt == now
        && |r.value.options| == |req.options|
        && forall i :: 0 <= i < |req.options| ==>
             r.value.options[i].id == optionIds[i] && r.value.options[i].text == TrimSpace(req.options[i])
      ensures r.Ok? <==> TrimSpace(creator) != "" && AcceptableCreate(req, now) && fault != WriteFails
      ensures r.Err? ==>
        r.error == if TrimSpace(creator) == "" then Forbidden else if AcceptableCreate(req, now) then StoreFailed
                   else InvalidInput
    {
      if TrimSpace(creator) == "" {
        return Err(Forbidden);
      }
      var valid := ValidateCreatePoll(req, now);
      if valid.Err? {
        return Err(InvalidInput);
      }
      var (question, texts) := valid.value;
      var options: seq<PollOption> := [];
      for i := 0 to |texts|
        invariant |options| == i
        invariant forall k :: 0 <= k < i ==> options[k] == PollOption(optionIds[k], texts[k])
      {
        options := options + [PollOption(optionIds[i], texts[i])];
      }
      var doc := PollDoc(newId, creator, question, options, Active, false, None, req.expiresAt, now, now);
      assert options == NewPoll(Op.Create(creator, req, now, newId, optionIds, fault)).options;
      var ok := repo.Create(doc, fault == WriteFails);
      if !ok {
        return Err(StoreFailed);
      }
      return Ok(doc);
    }

    /** Loads the poll for its creator, as every owner operation begins. */
    method LoadOwned(creator: string, id: string, fault: Fault) returns (r: Result<Poll, PollError>)
      ensures r.Ok? ==> fresh(r.value)
      ensures match Load(repo.docs, creator, id, fault)
        case Err(e) => r == Err(e)
        case Ok(doc) => r.Ok? && r.value.Doc() == doc
    {
      r := repo.FindByID(id, fault == ReadFails);
      if r.Ok? && r.value.creator != creator {
        return Err(Forbidden);
      }
    }

    method UpdatePoll(creator: string, pollId: string, update: UpdateRequest, now: int, fault: Fault)
      returns (r: Result<PollDoc, PollError>)
      requires StoreInv(State())
      modifies repo
      ensures (State(), r) == Exec(old(State()), Op.Update(creator, pollId, update, now, fault))
      ensures var id := ParseObjectID(TrimSpace(pollId));
        r.Ok? <==> (TrimSpace(creator) != "" && id.Some? && id.value in old(repo.docs)
          && var doc := old(repo.docs)[id.value];
             && !doc.deleted && doc.creator == creator && doc.status == Active && AcceptableUpdate(doc, update)
             && fault != ReadFails && fault != WriteFails)
      ensures r.Err? ==> repo.docs == old(repo.docs)
      ensures r.Ok? ==>
        var id := ParseObjectID(TrimSpace(pollId));
        && id.Some? && id.value in old(repo.docs) && repo.docs == old(repo.docs)[id.value := r.value]
        && var doc := old(repo.docs)[id.value];
        && r.value == doc.(question := r.value.question, options := r.value.options, updatedAt := now)
        && r.value.question == (if update.question.Some? then TrimSpace(update.question.value) else doc.question)
        && (update.options == [] ==> r.value.options == doc.options)
        && (update.options != [] ==> |r.value.options| == |update.options| == |doc.options|)
        && var byId := exists k :: 0 <= k < |update.options| && TrimSpace(update.options[k].id) != "";
           forall i :: 0 <= i < |update.options| ==>
             && r.value.options[i].text == TrimSpace(update.options[i].text)
             && r.value.options[i].id == if byId then TrimSpace(update.options[i].id) else doc.options[i].id
    {
      ghost var op := Op.Update(creator, pollId, update, now, fault);
      ExecEffect(State(), op);
      if TrimSpace(creator) == "" {
        return Err(Forbidden);
      }
      if TrimSpace(pollId) == "" {
        return Err(NotFound);
      }
      var loaded := LoadOwned(creator, TrimSpace(pollId), fault);
      if loaded.Err? {
        return Err(loaded.error);
      }
      OwnerEffect(State(), op);
      r := Revise(loaded.value, update, now, fault, op);
      if r.Ok? {
        UpdateMeans(old(repo.docs)[loaded.value.id], update);
      }
    }

    /** Validates the update on the loaded copy and writes it back. */
    method Revise(poll: Poll, update: UpdateRequest, now: int, fault: Fault, ghost op: Op)
      returns (r: Result<PollDoc, PollError>)
      requires op.Update? && op.update == update && op.now == now && op.fault == fault
      requires poll.id in repo.docs && repo.docs[poll.id] == poll.Doc() && !poll.deleted
      modifies repo, poll
      ensures r == Amend(old(poll.Doc()), op)
      ensures repo.docs == if r.Ok? then old(repo.docs)[poll.id := r.value] else old(repo.docs)
    {
      if poll.status == Closed {
        return Err(IsClosed);
      }
      var valid := ValidateAndUpdatePoll(poll, update);
      if !valid {
        return Err(InvalidInput);
      }
      poll.updatedAt := now;
      var ok := repo.Update(poll, fault == WriteFails);
      if !ok {
        return Err(StoreFailed);
      }
      return Ok(poll.Doc());
    }

    method UpdateStatus(creator: string, pollId: string, status: Option<Status>, now: int, fault: Fault)
      returns (r: Result<PollDoc, PollError>)
      requires StoreInv(State())
      modifies this`broadcasts, repo
      ensures var found := Find(old(repo.docs), TrimSpace(pollId));
        var owned := TrimSpace(creator) != "" && found.Some? && found.value.creator == creator
          && status.Some? && fault != ReadFails;
        var changes := owned && found.value.status != status.value;
        && (r.Ok? <==> owned && (changes ==> fault == NoFault))
        && (r.Ok? ==>
              r.value == if changes then found.value.(status := status.value, updatedAt := now) else found.value)
        && repo.docs == (if changes && fault != WriteFails
             then old(repo.docs)[found.value.id := found.value.(status := status.value, updatedAt := now)]
             else old(repo.docs))
        && broadcasts == (if changes && fault == NoFault && status.value == Closed && hasBroadcaster
             then old(broadcasts) + [TrimSpace(pollId)] else old(broadcasts))
      ensures var (after, result) := Exec(old(State()), Op.SetStatus(creator, pollId, status, now, fault));
        r == result && repo.docs == after.docs
        && broadcasts == if hasBroadcaster then after.broadcasts else old(broadcasts)
    {
      ghost var op := Op.SetStatus(creator, pollId, status, now, fault);
      ExecEffect(State(), op);
      AdmittedIff(State(), op);
      if TrimSpace(creator) == "" {
        return Err(Forbidden);
      }
      if TrimSpace(pollId) == "" {
        return Err(NotFound);
      }
      if status.None? {
        return Err(InvalidInput);
      }
      var loaded := LoadOwned(creator, TrimSpace(pollId), fault);
      if loaded.Err? {
        return Err(loaded.error);
      }
      OwnerEffect(State(), op);
      r := ChangeStatus(loaded.value, TrimSpace(pollId), status.value, now, fault, op);
    }

    /** Writes the new status, unless it is the present one, and announces a closing. */
    method ChangeStatus(poll: Poll, pollId: string, status: Status, now: int, fault: Fault, ghost op: Op)
      returns (r: Result<PollDoc, PollError>)
      requires op.SetStatus? && op.status == Some(status) && op.now == now && op.fault == fault
      requires poll.id in repo.docs && repo.docs[poll.id] == poll.Doc() && !poll.deleted
      requires ParseObjectID(pollId) == Some(poll.id)
      modifies this`broadcasts, repo
      ensures var doc, amended := old(poll.Doc()), Amend(old(poll.Doc()), op);
        && r == (if amended.Ok? && ReplyLost(doc, op) then Err(StoreFailed) else amended)
        && repo.docs == (if amended.Ok? then old(repo.docs)[poll.id := amended.value] else old(repo.docs))
        && broadcasts == if amended.Ok? && Announces(doc, op) && hasBroadcaster then old(broadcasts) + [pollId]
                         else old(broadcasts)
    {
      if poll.status == status {
        assert repo.docs[poll.id := poll.Doc()] == repo.docs;
        return Ok(poll.Doc());
      }
      var updated := repo.UpdateStatus(pollId, status, now, fault == WriteFails, fault == ReadBackFails);
      if updated.Err? {
        return Err(StoreFailed);
      }
      if status == Closed && hasBroadcaster {
        broadcasts := broadcasts + [pollId];
      }
      return Ok(updated.value.Doc());
    }

    method ClosePoll(creator: string, pollId: string, now: int, fault: Fault) returns (r: Result<PollDoc, PollError>)
      requires StoreInv(State())
      modifies this`broadcasts, repo
      ensures var (after, result) := Exec(old(State()), Op.SetStatus(creator, pollId, Some(Closed), now, fault));
        r == result && repo.docs == after.docs
        && broadcasts == if hasBroadcaster then after.broadcasts else old(broadcasts)
    {
      r := UpdateStatus(creator, pollId, Some(Closed), now, fault);
    }

    method DeletePoll(creator: string, pollId: string, now: int, fault: Fault) returns (r: Result<(), PollError>)
      requires StoreInv(State())
      modifies repo
      ensures State() == Exec(old(State()), Op.Delete(creator, pollId, now, fault)).0
      ensures r == Bare(Exec(old(State()), Op.Delete(creator, pollId, now, fault)).1)
      ensures var id := ParseObjectID(TrimSpace(pollId));
        && (r.Ok? <==> (TrimSpace(creator) != "" && id.Some? && id.value in old(repo.docs)
              && !old(repo.docs)[id.value].deleted && old(repo.docs)[id.value].creator == creator
              && fault != ReadFails && fault != WriteFails))
        && repo.docs == (if r.Ok?
             then old(repo.docs)[id.value :=
               old(repo.docs)[id.value].(deleted := true, deletedAt := Some(now), updatedAt := now)]
             else old(repo.docs))
      ensures r.Ok? ==> Find(repo.docs, TrimSpace(pollId)) == None
    {
      ghost var op := Op.Delete(creator, pollId, now, fault);
      ExecEffect(State(), op);
      if TrimSpace(creator) == "" {
        return Err(Forbidden);
      }
      if TrimSpace(pollId) == "" {
        return Err(NotFound);
      }
      var loaded := LoadOwned(creator, TrimSpace(pollId), fault);
      if loaded.Err? {
        return Err(loaded.error);
      }
      OwnerEffect(State(), op);
      r := Remove(loaded.value, TrimSpace(pollId), now, fault, op);
    }

    method Remove(poll: Poll, pollId: string, now: int, fault: Fault, ghost op: Op) returns (r: Result<(), PollError>)
      requires op.Delete? && op.now == now && op.fault == fault
      requires poll.id in repo.docs && repo.docs[poll.id] == poll.Doc() && !poll.deleted
      requires ParseObjectID(pollId) == Some(poll.id)
      modifies repo
      ensures r == Bare(Amend(old(poll.Doc()), op))
      ensures repo.docs == if r.Ok? then old(repo.docs)[poll.id := Amend(old(poll.Doc()), op).value] else old(repo.docs)
    {
      var ok := repo.SoftDelete(pollId, now, fault == WriteFails);
      if !ok {
        return Err(StoreFailed);
      }
      return Ok(());
    }
  }

  /** The outcome without the document. */
  function Bare(r: Result<PollDoc, PollError>): Result<(), PollError> {
    match r
    case Ok(_) => Ok(())
    case Err(e) => Err(e)
  }
}
