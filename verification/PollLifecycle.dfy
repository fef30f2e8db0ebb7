/** The life of polls: what each service operation does to the store, over every run of operations. */
module PollLifecycle {
  import opened Common
  import opened Text
  import opened PollValidation

  datatype PollError = Forbidden | NotFound | InvalidInput | IsClosed | StoreFailed

  /** The database call of an operation that fails, without effect.  A status change reads the
      document back after writing it; that read can fail as well. */
  datatype Fault = NoFault | ReadFails | WriteFails | ReadBackFails

  /** Stored documents by canonical ID, and the poll IDs whose closing was broadcast, in order. */
  datatype Store = Store(docs: map<string, PollDoc>, broadcasts: seq<string>)

  datatype Op =
    | Create(creator: string, req: CreateRequest, now: int, newId: string, optionIds: seq<string>, fault: Fault)
    | Update(creator: string, pollId: string, update: UpdateRequest, now: int, fault: Fault)
    | SetStatus(creator: string, pollId: string, status: Option<Status>, now: int, fault: Fault)
    | Delete(creator: string, pollId: string, now: int, fault: Fault)

  /** Generated object IDs are canonical, unused and pairwise different. */
  ghost predicate FreshIds(st: Store, op: Op) {
    op.Create? ==>
      && op.newId !in st.docs && ParseObjectID(op.newId) == Some(op.newId)
      && Distinct(op.optionIds) && |op.optionIds| == |op.req.options|
  }

  /** FindByID: a well-formed ID of a document that is not deleted. */
  function Find(docs: map<string, PollDoc>, id: string): Option<PollDoc> {
    match ParseObjectID(id)
    case None => None
    case Some(key) => if key in docs && !docs[key].deleted then Some(docs[key]) else None
  }

  /** It is found exactly when it is stored under the canonical ID and not deleted, in whatever state. */
  lemma FoundIff(docs: map<string, PollDoc>, id: string)
    ensures Find(docs, id).Some? <==>
      ParseObjectID(id).Some? && ParseObjectID(id).value in docs && !docs[ParseObjectID(id).value].deleted
    ensures Find(docs, id).Some? ==> Find(docs, id).value == docs[ParseObjectID(id).value]
  {
  }

  function NewPoll(op: Op): PollDoc
    requires op.Create? && |op.optionIds| == |op.req.options|
  {
    PollDoc(op.newId, op.creator, TrimSpace(op.req.question),
      seq(|op.req.options|, i requires 0 <= i < |op.req.options| =>
        PollOption(op.optionIds[i], TrimSpace(op.req.options[i]))),
      Active, false, None, op.req.expiresAt, op.now, op.now)
  }

  /** Loads the poll of that ID for its creator. */
  function Load(docs: map<string, PollDoc>, creator: string, id: string, fault: Fault): Result<PollDoc, PollError> {
    if ParseObjectID(id).None? then Err(NotFound)
    else if fault == ReadFails then Err(StoreFailed)
    else
      match Find(docs, id)
      case None => Err(NotFound)
      case Some(doc) => if doc.creator != creator then Err(Forbidden) else Ok(doc)
  }

  /** The checks every owner operation starts with: a named caller, a named poll, a known status
      where one is asked for, an existing poll, and its creator. */
  function Admit(st: Store, op: Op): Result<PollDoc, PollError>
    requires !op.Create?
  {
    if TrimSpace(op.creator) == "" then Err(Forbidden)
    else if TrimSpace(op.pollId) == "" then Err(NotFound)
    else if op.SetStatus? && op.status.None? then Err(InvalidInput)
    else Load(st.docs, op.creator, TrimSpace(op.pollId), op.fault)
  }

  /** What an admitted operation makes of the document. */
  ghost function Amend(doc: PollDoc, op: Op): Result<PollDoc, PollError>
    requires !op.Create? && (op.SetStatus? ==> op.status.Some?)
  {
    match op
    case Update(_, _, update, now, fault) =>
      if doc.status == Closed then Err(IsClosed)
      else if !AcceptableUpdate(doc, update) then Err(InvalidInput)
      else if fault == WriteFails then Err(StoreFailed)
      else Ok(Updated(doc, update).(updatedAt := now))
    case SetStatus(_, _, status, now, fault) =>
      if doc.status == status.value then Ok(doc)
      else if fault == WriteFails then Err(StoreFailed)
      else Ok(doc.(status := status.value, updatedAt := now))
    case Delete(_, _, now, fault) =>
      if fault == WriteFails then Err(StoreFailed)
      else Ok(doc.(deleted := true, deletedAt := Some(now), updatedAt := now))
  }

  /** The status was written but the document could not be read back: the caller gets an error. */
  predicate ReplyLost(doc: PollDoc, op: Op) {
    op.SetStatus? && op.fault == ReadBackFails && op.status != Some(doc.status)
  }

  predicate Announces(doc: PollDoc, op: Op) {
    op.SetStatus? && op.status == Some(Closed) && doc.status != Closed && !ReplyLost(doc, op)
  }

  ghost function Exec(st: Store, op: Op): (Store, Result<PollDoc, PollError>)
    requires FreshIds(st, op)
  {
    if op.Create? then ExecCreate(st, op) else ExecOwner(st, op)
  }

  ghost function ExecCreate(st: Store, op: Op): (Store, Result<PollDoc, PollError>)
    requires op.Create? && FreshIds(st, op)
  {
    if TrimSpace(op.creator) == "" then (st, Err(Forbidden))
    else if !AcceptableCreate(op.req, op.now) then (st, Err(InvalidInput))
    else if op.fault == WriteFails then (st, Err(StoreFailed))
    else (st.(docs := st.docs[op.newId := NewPoll(op)]), Ok(NewPoll(op)))
  }

  ghost function ExecOwner(st: Store, op: Op): (Store, Result<PollDoc, PollError>)
    requires !op.Create?
  {
    match Admit(st, op)
    case Err(e) => (st, Err(e))
    case Ok(doc) =>
      match Amend(doc, op)
      case Err(e) => (st, Err(e))
      case Ok(doc') =>
        (Store(st.docs[doc.id := doc'],
               if Announces(doc, op) then st.broadcasts + [TrimSpace(op.pollId)] else st.broadcasts),
         if ReplyLost(doc, op) then Err(StoreFailed) else Ok(doc'))
  }

  // ----- what each error means -----

  /** An owner operation is forbidden exactly to the nameless and to those who did not create the poll. */
  lemma ForbiddenIff(st: Store, op: Op)
    requires !op.Create?
    ensures var found := Find(st.docs, TrimSpace(op.pollId));
      Exec(st, op).1 == Err(Forbidden) <==>
        || TrimSpace(op.creator) == ""
        || ((op.SetStatus? ==> op.status.Some?) && op.fault != ReadFails
            && found.Some? && found.value.creator != op.creator)
  {
  }

  /** It finds no poll under a blank or malformed ID, nor when none is stored under it. */
  lemma NotFoundIff(st: Store, op: Op)
    requires !op.Create?
    ensures var id := TrimSpace(op.pollId);
      Exec(st, op).1 == Err(NotFound) <==>
        && TrimSpace(op.creator) != ""
        && (id == ""
            || ((op.SetStatus? ==> op.status.Some?)
                && (ParseObjectID(id).None? || (op.fault != ReadFails && Find(st.docs, id).None?))))
  {
  }

  /** Only updates are refused because the poll is closed, and only to its creator. */
  lemma IsClosedIff(st: Store, op: Op)
    requires !op.Create?
    ensures var found := Find(st.docs, TrimSpace(op.pollId));
      Exec(st, op).1 == Err(IsClosed) <==>
        && TrimSpace(op.creator) != "" && found.Some? && found.value.creator == op.creator
        && op.Update? && op.fault != ReadFails && found.value.status == Closed
  {
  }

  /** A status that is none is refused before the poll is looked for, an update that is not
      acceptable after its creator and its status have been checked. */
  lemma InvalidInputIff(st: Store, op: Op)
    requires !op.Create?
    ensures var found := Find(st.docs, TrimSpace(op.pollId));
      Exec(st, op).1 == Err(InvalidInput) <==>
        && TrimSpace(op.creator) != "" && TrimSpace(op.pollId) != ""
        && ((op.SetStatus? && op.status.None?)
            || (op.Update? && op.fault != ReadFails && found.Some? && found.value.creator == op.creator
                && found.value.status == Active && !AcceptableUpdate(found.value, op.update)))
  {
  }

  /** A failing store shows when the operation gets to it: the read of the document, the write of
      one that changes something, or the read-back of a status change. */
  lemma StoreFailedIff(st: Store, op: Op)
    requires !op.Create?
    ensures var id := TrimSpace(op.pollId);
      var found := Find(st.docs, id);
      Exec(st, op).1 == Err(StoreFailed) <==>
        && TrimSpace(op.creator) != "" && ParseObjectID(id).Some? && (op.SetStatus? ==> op.status.Some?)
        && (op.fault == ReadFails
            || (found.Some? && found.value.creator == op.creator
                && (op.Update? ==> found.value.status == Active && AcceptableUpdate(found.value, op.update))
                && (op.SetStatus? ==> op.status != Some(found.value.status))
                && (op.fault == WriteFails || (op.SetStatus? && op.fault == ReadBackFails))))
  {
  }

  // ----- runs -----

  ghost predicate IsHistory(st: Store, ops: seq<Op>)
    decreases |ops|
  {
    ops != [] ==> FreshIds(st, ops[0]) && IsHistory(Exec(st, ops[0]).0, ops[1..])
  }

  ghost function After(st: Store, ops: seq<Op>): Store
    requires IsHistory(st, ops)
    decreases |ops|
  {
    if ops == [] then st else After(Exec(st, ops[0]).0, ops[1..])
  }

  /** A poll anyone can load: 2 to 10 options with trimmed texts in range, different when lower-cased. */
  ghost predicate WellFormed(doc: PollDoc) {
    && GoodQuestion(doc.question)
    && MIN_OPTIONS_COUNT <= |doc.options| <= MAX_OPTIONS_COUNT
    && (forall i :: 0 <= i < |doc.options| ==> GoodOptionText(doc.options[i].text))
    && (forall i, j :: 0 <= i < j < |doc.options| ==> ToLower(doc.options[i].text) != ToLower(doc.options[j].text))
  }

  ghost predicate StoreInv(st: Store) {
    forall k :: k in st.docs ==> WellFormed(st.docs[k]) && st.docs[k].id == k && ParseObjectID(k) == Some(k)
  }

  lemma FindIsOwn(st: Store, id: string)
    requires StoreInv(st) && Find(st.docs, id).Some?
    ensures Find(st.docs, id).value.id in st.docs
    ensures st.docs[Find(st.docs, id).value.id] == Find(st.docs, id).value
    ensures ParseObjectID(id) == Some(Find(st.docs, id).value.id)
  {
  }

  lemma UpdatedIsWellFormed(doc: PollDoc, req: UpdateRequest)
    requires WellFormed(doc) && AcceptableUpdate(doc, req)
    ensures WellFormed(Updated(doc, req))
  {
    if req.question.Some? {
      TrimIsIdempotent(req.question.value);
    }
    if req.options != [] {
      var t := Texts(req.options);
      forall i | 0 <= i < |t| ensures GoodOptionText(TrimSpace(t[i])) {
        TrimIsIdempotent(t[i]);
      }
      forall i | 0 <= i < |t| ensures Updated(doc, req).options[i].text == TrimSpace(t[i]) {
      }
    }
  }

  lemma CreatedIsWellFormed(op: Op)
    requires op.Create? && |op.optionIds| == |op.req.options| && AcceptableCreate(op.req, op.now)
    ensures WellFormed(NewPoll(op))
  {
    TrimIsIdempotent(op.req.question);
    forall i | 0 <= i < |op.req.options| ensures GoodOptionText(TrimSpace(op.req.options[i])) {
      TrimIsIdempotent(op.req.options[i]);
    }
  }

  /** An owner operation by what its checks and its change come to. */
  lemma ExecEffect(st: Store, op: Op)
    requires !op.Create?
    ensures match Admit(st, op)
      case Err(e) => Exec(st, op) == (st, Err(e))
      case Ok(doc) =>
        match Amend(doc, op)
        case Err(e) => Exec(st, op) == (st, Err(e))
        case Ok(doc') =>
          && Exec(st, op).0.docs == st.docs[doc.id := doc']
          && Exec(st, op).0.broadcasts
               == (if Announces(doc, op) then st.broadcasts + [TrimSpace(op.pollId)] else st.broadcasts)
          && Exec(st, op).1 == if ReplyLost(doc, op) then Err(StoreFailed) else Ok(doc')
  {
  }

  /** What an operation is admitted to. */
  lemma AdmittedIff(st: Store, op: Op)
    requires !op.Create?
    ensures var found := Find(st.docs, TrimSpace(op.pollId));
      && (Admit(st, op).Ok? <==>
            && TrimSpace(op.creator) != "" && (op.SetStatus? ==> op.status.Some?) && op.fault != ReadFails
            && found.Some? && found.value.creator == op.creator)
      && (Admit(st, op).Ok? ==> Admit(st, op).value == found.value)
  {
  }

  /** An owner operation that changes anything replaces the one document it names. */
  lemma OwnerEffect(st: Store, op: Op)
    requires StoreInv(st) && !op.Create?
    ensures Admit(st, op).Ok? ==>
      var doc := Admit(st, op).value;
      && !doc.deleted && doc.creator == op.creator
      && doc.id in st.docs && st.docs[doc.id] == doc && WellFormed(doc) && ParseObjectID(doc.id) == Some(doc.id)
      && ParseObjectID(TrimSpace(op.pollId)) == Some(doc.id)
  {
    if Admit(st, op).Ok? {
      FindIsOwn(st, TrimSpace(op.pollId));
    }
  }

  lemma AmendEffect(doc: PollDoc, op: Op)
    requires !op.Create? && (op.SetStatus? ==> op.status.Some?) && WellFormed(doc) && Amend(doc, op).Ok? && !doc.deleted
    ensures WellFormed(Amend(doc, op).value) && Keeps(doc, Amend(doc, op).value)
    ensures doc.status == Closed ==>
      && Amend(doc, op).value.question == doc.question && Amend(doc, op).value.options == doc.options
      && (Amend(doc, op).value.status == Active ==> op.SetStatus? && op.status == Some(Active))
  {
    if op.Update? {
      UpdatedIsWellFormed(doc, op.update);
    }
  }

  lemma StoreInvStep(st: Store, op: Op)
    requires StoreInv(st) && FreshIds(st, op)
    ensures StoreInv(Exec(st, op).0)
  {
    if op.Create? {
      CreateStep(st, op);
    } else {
      OwnerStep(st, op);
    }
  }

  lemma CreateStep(st: Store, op: Op)
    requires StoreInv(st) && FreshIds(st, op) && op.Create?
    ensures StoreInv(Exec(st, op).0)
    ensures Exec(st, op).0.broadcasts == st.broadcasts
    ensures forall k :: k in st.docs ==> k in Exec(st, op).0.docs && Exec(st, op).0.docs[k] == st.docs[k]
  {
    CreateEffect(st, op);
    if Exec(st, op).0 != st {
      CreatedIsWellFormed(op);
    }
  }

  lemma CreateEffect(st: Store, op: Op)
    requires FreshIds(st, op) && op.Create?
    ensures Exec(st, op).0 == st
      || (AcceptableCreate(op.req, op.now) && Exec(st, op).0 == st.(docs := st.docs[op.newId := NewPoll(op)]))
  {
  }

  /** What an owner operation changes: at most the document it was admitted to. */
  lemma OwnerStep(st: Store, op: Op)
    requires StoreInv(st) && !op.Create?
    ensures StoreInv(Exec(st, op).0)
    ensures Exec(st, op).0.docs != st.docs || Exec(st, op).0.broadcasts != st.broadcasts ==>
      Admit(st, op).Ok? && Amend(Admit(st, op).value, op).Ok?
    ensures Admit(st, op).Ok? && Amend(Admit(st, op).value, op).Ok? ==>
      Exec(st, op).0.docs == st.docs[Admit(st, op).value.id := Amend(Admit(st, op).value, op).value]
  {
    ExecEffect(st, op);
    OwnerEffect(st, op);
    if Admit(st, op).Ok? && Amend(Admit(st, op).value, op).Ok? {
      AmendEffect(Admit(st, op).value, op);
    }
  }

  /** In every run from a well-formed store, every stored poll stays well formed. */
  lemma {:induction false} PollsStayWellFormed(st: Store, ops: seq<Op>)
    requires StoreInv(st) && IsHistory(st, ops)
    ensures StoreInv(After(st, ops))
    ensures forall k :: k in After(st, ops).docs ==>
      var doc := After(st, ops).docs[k];
      && doc.id == k && ParseObjectID(k) == Some(k)
      && 3 <= |doc.question| <= 255 && doc.question == TrimSpace(doc.question)
      && 2 <= |doc.options| <= 10
      && (forall i :: 0 <= i < |doc.options| ==>
            1 <= |doc.options[i].text| <= 150 && doc.options[i].text == TrimSpace(doc.options[i].text))
      && (forall i, j :: 0 <= i < j < |doc.options| ==> ToLower(doc.options[i].text) != ToLower(doc.options[j].text))
    decreases |ops|
  {
    if ops != [] {
      StoreInvStep(st, ops[0]);
      PollsStayWellFormed(Exec(st, ops[0]).0, ops[1..]);
    }
  }

  /** What no operation changes about a stored poll, and what a closed or deleted one keeps. */
  ghost predicate Keeps(doc: PollDoc, doc': PollDoc) {
    && doc'.id == doc.id && doc'.creator == doc.creator
    && doc'.createdAt == doc.createdAt && doc'.expiresAt == doc.expiresAt
    && |doc'.options| == |doc.options|
    && (doc.deleted ==> doc' == doc)
  }

  predicate Reopens(op: Op, k: string) {
    op.SetStatus? && op.status == Some(Active) && ParseObjectID(TrimSpace(op.pollId)) == Some(k)
  }

  lemma KeepsStep(st: Store, op: Op, k: string)
    requires StoreInv(st) && FreshIds(st, op) && k in st.docs
    ensures k in Exec(st, op).0.docs
    ensures var doc, doc' := st.docs[k], Exec(st, op).0.docs[k];
      && Keeps(doc, doc')
      && (doc.status == Closed ==> doc'.question == doc.question && doc'.options == doc.options)
      && (doc.status == Closed && doc'.status == Active ==> Reopens(op, k) && op.creator == doc.creator)
  {
    if !op.Create? && Admit(st, op).Ok? {
      OwnerEffect(st, op);
      var doc := Admit(st, op).value;
      if Amend(doc, op).Ok? && doc.id == k {
        AmendEffect(doc, op);
      }
    }
  }

  /** In every run a poll keeps its creator, its age, its expiry and its number of options, and a
      deleted poll never changes again. */
  lemma {:induction false} PollsKeepTheirCreator(st: Store, ops: seq<Op>, k: string)
    requires StoreInv(st) && IsHistory(st, ops) && k in st.docs
    ensures k in After(st, ops).docs && Keeps(st.docs[k], After(st, ops).docs[k])
    ensures var doc, doc' := st.docs[k], After(st, ops).docs[k];
      && doc'.id == doc.id && doc'.creator == doc.creator
      && doc'.createdAt == doc.createdAt && doc'.expiresAt == doc.expiresAt
      && |doc'.options| == |doc.options|
      && (doc.deleted ==> doc' == doc)
    decreases |ops|
  {
    if ops != [] {
      StoreInvStep(st, ops[0]);
      KeepsStep(st, ops[0], k);
      PollsKeepTheirCreator(Exec(st, ops[0]).0, ops[1..], k);
    }
  }

  /** Until its creator asks to re-open it, a closed poll stays closed with the same content. */
  lemma {:induction false} ClosedContentIsConstant(st: Store, ops: seq<Op>, k: string)
    requires StoreInv(st) && IsHistory(st, ops) && k in st.docs && st.docs[k].status == Closed
    requires forall op :: op in ops ==> !(Reopens(op, k) && op.creator == st.docs[k].creator)
    ensures k in After(st, ops).docs
    ensures var doc := After(st, ops).docs[k];
      doc.status == Closed && doc.question == st.docs[k].question && doc.options == st.docs[k].options
    decreases |ops|
  {
    if ops != [] {
      assert ops[0] in ops;
      assert forall op :: op in ops[1..] ==> op in ops;
      StoreInvStep(st, ops[0]);
      KeepsStep(st, ops[0], k);
      ClosedContentIsConstant(Exec(st, ops[0]).0, ops[1..], k);
    }
  }

  /** The operation is a status change whose reply is lost after the write. */
  predicate LosesReply(st: Store, op: Op) {
    !op.Create? && Admit(st, op).Ok? && ReplyLost(Admit(st, op).value, op)
  }

  /** A failed operation leaves documents and broadcasts as they were, unless it is a status change
      that could not read the document back: then the new status is stored all the same. */
  lemma FailureChangesNothingIff(st: Store, op: Op)
    requires StoreInv(st) && FreshIds(st, op) && Exec(st, op).1.Err?
    ensures Exec(st, op).0 == st <==> !LosesReply(st, op)
  {
    if LosesReply(st, op) {
      OwnerEffect(st, op);
      var doc := Admit(st, op).value;
      assert Exec(st, op).0.docs[doc.id].status != st.docs[doc.id].status;
    }
  }

  // ----- closing is announced once -----

  predicate JustClosed(before: Store, after: Store, k: string) {
    && k in before.docs && before.docs[k].status == Active
    && k in after.docs && after.docs[k].status == Closed
  }

  /** The number of operations in a run that took poll `k` from active to closed. */
  ghost function Closings(st: Store, ops: seq<Op>, k: string): nat
    requires IsHistory(st, ops)
    decreases |ops|
  {
    if ops == [] then 0
    else
      var st' := Exec(st, ops[0]).0;
      (if JustClosed(st, st', k) then 1 else 0) + Closings(st', ops[1..], k)
  }

  /** The number of them whose reply was lost. */
  ghost function SilentClosings(st: Store, ops: seq<Op>, k: string): nat
    requires IsHistory(st, ops)
    decreases |ops|
  {
    if ops == [] then 0
    else
      var st' := Exec(st, ops[0]).0;
      (if JustClosed(st, st', k) && LosesReply(st, ops[0]) then 1 else 0) + SilentClosings(st', ops[1..], k)
  }

  /** The number of announcements that reach the channel of poll `k`. */
  function Announced(broadcasts: seq<string>, k: string): nat {
    if broadcasts == [] then 0
    else
      Announced(broadcasts[..|broadcasts| - 1], k)
      + (if ParseObjectID(broadcasts[|broadcasts| - 1]) == Some(k) then 1 else 0)
  }

  lemma AnnouncedOnce(st: Store, op: Op, k: string)
    requires StoreInv(st) && FreshIds(st, op)
    ensures var st' := Exec(st, op).0;
      Announced(st'.broadcasts, k)
      == Announced(st.broadcasts, k) + (if JustClosed(st, st', k) && !LosesReply(st, op) then 1 else 0)
  {
    if op.Create? {
      CreateStep(st, op);
    } else {
      ExecEffect(st, op);
      if Admit(st, op).Ok? && Amend(Admit(st, op).value, op).Ok? {
        OwnerEffect(st, op);
        AnnouncesItsClosing(Admit(st, op).value, op);
        AnnouncedAppend(st.broadcasts, TrimSpace(op.pollId), k);
      }
    }
  }

  lemma AnnouncesItsClosing(doc: PollDoc, op: Op)
    requires !op.Create? && (op.SetStatus? ==> op.status.Some?) && Amend(doc, op).Ok?
    ensures Announces(doc, op)
       <==> doc.status == Active && Amend(doc, op).value.status == Closed && !ReplyLost(doc, op)
  {
  }

  lemma AnnouncedAppend(broadcasts: seq<string>, id: string, k: string)
    ensures Announced(broadcasts + [id], k)
      == Announced(broadcasts, k) + (if ParseObjectID(id) == Some(k) then 1 else 0)
  {
    assert (broadcasts + [id])[..|broadcasts|] == broadcasts;
  }

  /** In every run the announcements of a poll's closing are as many as its transitions from active
      to closed, less those whose reply was lost: no other is missing, and none is doubled or sent
      by a failed or repeated close. */
  lemma {:induction false} EachClosingIsAnnouncedOnce(st: Store, ops: seq<Op>, k: string)
    requires StoreInv(st) && IsHistory(st, ops)
    ensures Announced(After(st, ops).broadcasts, k) + SilentClosings(st, ops, k)
         == Announced(st.broadcasts, k) + Closings(st, ops, k)
    decreases |ops|
  {
    if ops != [] {
      StoreInvStep(st, ops[0]);
      AnnouncedOnce(st, ops[0], k);
      EachClosingIsAnnouncedOnce(Exec(st, ops[0]).0, ops[1..], k);
    }
  }

  // ----- option identity in the store -----

  ghost predicate IdRespecting(op: Op) {
    op.Update? ==> DistinctRequest(op.update)
  }

  lemma AmendKeepsIds(doc: PollDoc, op: Op)
    requires !op.Create? && (op.SetStatus? ==> op.status.Some?) && Amend(doc, op).Ok?
    requires IdRespecting(op) && Distinct(Ids(doc.options))
    ensures multiset(Ids(Amend(doc, op).value.options)) == multiset(Ids(doc.options))
  {
    if op.Update? {
      OptionIdsSurviveUpdates(doc, [op.update]);
      assert UpdateAll(doc, [op.update][..0]) == doc;
      assert Ids(Amend(doc, op).value.options) == Ids(Updated(doc, op.update).options);
    } else {
      assert Ids(Amend(doc, op).value.options) == Ids(doc.options);
    }
  }

  lemma IdsStep(st: Store, op: Op, k: string)
    requires StoreInv(st) && FreshIds(st, op) && k in st.docs && IdRespecting(op)
    requires Distinct(Ids(st.docs[k].options))
    ensures k in Exec(st, op).0.docs
    ensures multiset(Ids(Exec(st, op).0.docs[k].options)) == multiset(Ids(st.docs[k].options))
  {
    if !op.Create? && Admit(st, op).Ok? {
      OwnerEffect(st, op);
      var doc := Admit(st, op).value;
      if Amend(doc, op).Ok? && doc.id == k {
        AmendKeepsIds(doc, op);
      }
    }
  }

  /** In every run whose ID-carrying updates name distinct IDs, a poll's option IDs stay a
      permutation of those it was created with. */
  lemma {:induction false} OptionIdsAreStable(st: Store, ops: seq<Op>, k: string)
    requires StoreInv(st) && IsHistory(st, ops) && k in st.docs
    requires Distinct(Ids(st.docs[k].options))
    requires forall op :: op in ops ==> IdRespecting(op)
    ensures k in After(st, ops).docs
    ensures Distinct(Ids(After(st, ops).docs[k].options))
    ensures multiset(Ids(After(st, ops).docs[k].options)) == multiset(Ids(st.docs[k].options))
    decreases |ops|
  {
    if ops != [] {
      assert ops[0] in ops && forall op :: op in ops[1..] ==> op in ops;
      StoreInvStep(st, ops[0]);
      IdsStep(st, ops[0], k);
      DistinctByMultiset(Ids(Exec(st, ops[0]).0.docs[k].options), Ids(st.docs[k].options));
      OptionIdsAreStable(Exec(st, ops[0]).0, ops[1..], k);
    }
  }

  // ----- where the documented promises end -----

  /** The update that names the first option's ID twice, the second time for the second option's text. */
  function RepeatFirst(doc: PollDoc): UpdateRequest
    requires |doc.options| >= 2
  {
    UpdateRequest(None, seq(|doc.options|, i requires 0 <= i < |doc.options| =>
      UpdateOption(doc.options[if i == 1 then 0 else i].id, doc.options[i].text)))
  }

  lemma CanonicalIdsAreTrimmed(id: string)
    requires ParseObjectID(id).Some?
    ensures TrimSpace(id) == id && id != ""
  {
  }

  /** Whatever well-formed poll with distinct generated IDs it is: repeating the first ID is
      accepted, and the second option is gone. */
  lemma RepeatedIdLosesAnOption(doc: PollDoc)
    requires WellFormed(doc) && Distinct(Ids(doc.options))
    requires forall i :: 0 <= i < |doc.options| ==> ParseObjectID(doc.options[i].id).Some?
    ensures AcceptableUpdate(doc, RepeatFirst(doc))
    ensures var updated := Ids(Updated(doc, RepeatFirst(doc)).options);
      updated == Ids(doc.options)[1 := doc.options[0].id] && doc.options[1].id !in updated
  {
    RepeatFirstIsAcceptable(doc);
    UpdatedIds(doc, RepeatFirst(doc));
    RepeatedIds(doc);
    assert Ids(doc.options)[1] == doc.options[1].id;
  }

  /** The IDs of that request: the first one twice, the second one missing. */
  lemma RepeatedIds(doc: PollDoc)
    requires |doc.options| >= 2 && Distinct(Ids(doc.options))
    requires forall i :: 0 <= i < |doc.options| ==> ParseObjectID(doc.options[i].id).Some?
    ensures HasIds(RepeatFirst(doc))
    ensures RequestIds(RepeatFirst(doc).options) == Ids(doc.options)[1 := Ids(doc.options)[0]]
    ensures Ids(doc.options)[1] !in RequestIds(RepeatFirst(doc).options)
    ensures forall i :: 0 <= i < |doc.options| ==> TrimSpace(RepeatFirst(doc).options[i].id) in Ids(doc.options)
  {
    var req, ids := RequestIds(RepeatFirst(doc).options), Ids(doc.options);
    forall i | 0 <= i < |doc.options|
      ensures req[i] == TrimSpace(RepeatFirst(doc).options[i].id) == ids[if i == 1 then 0 else i] && req[i] != ""
    {
      CanonicalIdsAreTrimmed(doc.options[if i == 1 then 0 else i].id);
    }
    assert req[0] == TrimSpace(RepeatFirst(doc).options[0].id) != "";
    forall i | 0 <= i < |ids| ensures req[i] != ids[1] {
      assert ids[if i == 1 then 0 else i] != ids[1];
    }
  }

  lemma OwnTextsAreAcceptable(doc: PollDoc, texts: seq<string>)
    requires WellFormed(doc) && |texts| == |doc.options|
    requires forall i :: 0 <= i < |texts| ==> texts[i] == doc.options[i].text
    ensures AcceptableTexts(texts)
  {
  }

  lemma RepeatFirstIsAcceptable(doc: PollDoc)
    requires WellFormed(doc) && Distinct(Ids(doc.options))
    requires forall i :: 0 <= i < |doc.options| ==> ParseObjectID(doc.options[i].id).Some?
    ensures AcceptableUpdate(doc, RepeatFirst(doc)) && HasIds(RepeatFirst(doc))
  {
    RepeatedIds(doc);
    OwnTextsAreAcceptable(doc, Texts(RepeatFirst(doc).options));
  }

  /** Whatever open poll it is: a closing whose read-back fails answers an error, closes the poll,
      and announces nothing. */
  lemma LostReplyClosesSilently(st: Store, k: string, now: int)
    requires StoreInv(st) && k in st.docs && !st.docs[k].deleted && st.docs[k].status == Active
    requires TrimSpace(st.docs[k].creator) != ""
    ensures Exec(st, SetStatus(st.docs[k].creator, k, Some(Closed), now, ReadBackFails))
      == (st.(docs := st.docs[k := st.docs[k].(status := Closed, updatedAt := now)]), Err(StoreFailed))
  {
    CanonicalIdsAreTrimmed(k);
  }

  const EXAMPLE_ID: string := seq(24, _ => 'a')

  const EXAMPLE_POLL: PollDoc :=
    PollDoc(EXAMPLE_ID, "u", "Tea?", [PollOption("b", "Yes"), PollOption("c", "No")], Active, false, None, None, 0, 0)

  lemma ExampleStoreHolds()
    ensures StoreInv(Store(map[EXAMPLE_ID := EXAMPLE_POLL], []))
  {
    assert ToLower(EXAMPLE_ID) == EXAMPLE_ID;
    assert TrimSpace("Tea?") == "Tea?" && TrimSpace("Yes") == "Yes" && TrimSpace("No") == "No";
    assert |ToLower("Yes")| == 3 && |ToLower("No")| == 2;
  }

  /** A store and a close to which this happens. */
  lemma LostReplyExample()
    ensures var st := Store(map[EXAMPLE_ID := EXAMPLE_POLL], []);
      var (st', r) := Exec(st, SetStatus("u", EXAMPLE_ID, Some(Closed), 1, ReadBackFails));
      r == Err(StoreFailed) && st'.docs == map[EXAMPLE_ID := EXAMPLE_POLL.(status := Closed, updatedAt := 1)]
      && st'.broadcasts == []
  {
    ExampleStoreHolds();
    assert TrimSpace("u") == "u";
    LostReplyClosesSilently(Store(map[EXAMPLE_ID := EXAMPLE_POLL], []), EXAMPLE_ID, 1);
  }
}
