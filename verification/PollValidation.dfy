/** Polls, and the validation of creation and update requests. */
module PollValidation {
  import opened Common
  import opened Text

  const MIN_QUESTION_LENGTH := 3
  const MAX_QUESTION_LENGTH := 255
  const MIN_OPTIONS_COUNT := 2
  const MAX_OPTIONS_COUNT := 10
  const MIN_OPTION_LENGTH := 1
  const MAX_OPTION_LENGTH := 150

  datatype Status = Active | Closed

  datatype PollOption = PollOption(id: string, text: string)

  /** The stored document of a poll. Times are seconds on one clock. */
  datatype PollDoc = PollDoc(
    id: string, creator: string, question: string, options: seq<PollOption>, status: Status,
    deleted: bool, deletedAt: Option<int>, expiresAt: Option<int>, createdAt: int, updatedAt: int)

  /** A decoded copy of a poll document, which services change before writing it back. */
  class Poll {
    const id: string
    const creator: string
    var question: string
    var options: seq<PollOption>
    const status: Status
    const deleted: bool
    const deletedAt: Option<int>
    const expiresAt: Option<int>
    const createdAt: int
    var updatedAt: int

    constructor (doc: PollDoc)
      ensures Doc() == doc
    {
      id, creator, question, options, status := doc.id, doc.creator, doc.question, doc.options, doc.status;
      deleted, deletedAt, expiresAt := doc.deleted, doc.deletedAt, doc.expiresAt;
      createdAt, updatedAt := doc.createdAt, doc.updatedAt;
    }

    function Doc(): PollDoc
      reads this
    {
      PollDoc(id, creator, question, options, status, deleted, deletedAt, expiresAt, createdAt, updatedAt)
    }
  }

  datatype CreateRequest = CreateRequest(question: string, options: seq<string>, expiresAt: Option<int>)

  datatype UpdateOption = UpdateOption(id: string, text: string)

  datatype UpdateRequest = UpdateRequest(question: Option<string>, options: seq<UpdateOption>)

  // ----- what the limits mean -----

  predicate GoodQuestion(q: string) {
    MIN_QUESTION_LENGTH <= |q| <= MAX_QUESTION_LENGTH && q == TrimSpace(q)
  }

  predicate GoodOptionText(t: string) {
    MIN_OPTION_LENGTH <= |t| <= MAX_OPTION_LENGTH && t == TrimSpace(t)
  }

  /** Texts that are acceptable once trimmed, and differ pairwise when trimmed and lower-cased. */
  ghost predicate AcceptableTexts(texts: seq<string>) {
    && (forall i :: 0 <= i < |texts| ==> MIN_OPTION_LENGTH <= |TrimSpace(texts[i])| <= MAX_OPTION_LENGTH)
    && (forall i, j :: 0 <= i < j < |texts| ==> ToLower(TrimSpace(texts[i])) != ToLower(TrimSpace(texts[j])))
  }

  ghost predicate AcceptableQuestion(q: string) {
    MIN_QUESTION_LENGTH <= |TrimSpace(q)| <= MAX_QUESTION_LENGTH
  }

  ghost predicate AcceptableCreate(req: CreateRequest, now: int) {
    && AcceptableQuestion(req.question)
    && MIN_OPTIONS_COUNT <= |req.options| <= MAX_OPTIONS_COUNT
    && AcceptableTexts(req.options)
    && (req.expiresAt.Some? ==> req.expiresAt.value > now)
  }

  function Texts(options: seq<UpdateOption>): seq<string> {
    seq(|options|, i requires 0 <= i < |options| => options[i].text)
  }

  function Ids(options: seq<PollOption>): seq<string> {
    seq(|options|, i requires 0 <= i < |options| => options[i].id)
  }

  function RequestIds(options: seq<UpdateOption>): seq<string> {
    seq(|options|, i requires 0 <= i < |options| => TrimSpace(options[i].id))
  }

  /** One option that names an ID makes the whole update an update by ID. */
  predicate HasIds(req: UpdateRequest) {
    exists i :: 0 <= i < |req.options| && TrimSpace(req.options[i].id) != ""
  }

  ghost predicate AcceptableUpdate(doc: PollDoc, req: UpdateRequest) {
    && (req.question.Some? || req.options != [])
    && (req.question.Some? ==> AcceptableQuestion(req.question.value))
    && (req.options != [] ==>
          |req.options| == |doc.options| && AcceptableOptions(doc.options, req))
  }

  function WithQuestion(doc: PollDoc, req: UpdateRequest): PollDoc {
    if req.question.Some? then doc.(question := TrimSpace(req.question.value)) else doc
  }

  function Updated(doc: PollDoc, req: UpdateRequest): PollDoc
    requires req.options != [] ==> |req.options| == |doc.options|
  {
    if req.options == [] then WithQuestion(doc, req)
    else WithQuestion(doc, req).(options := Replaced(doc.options, req))
  }

  // ----- validation -----

  /** The check each option text goes through; `seen` holds the normalized texts accepted so far. */
  method CheckText(raw: string, seen: set<string>) returns (ok: bool, trimmed: string, seen': set<string>)
    ensures trimmed == TrimSpace(raw)
    ensures ok <==> MIN_OPTION_LENGTH <= |trimmed| <= MAX_OPTION_LENGTH && ToLower(trimmed) !in seen
    ensures ok ==> seen' == seen + {ToLower(trimmed)}
  {
    trimmed := TrimSpace(raw);
    seen' := seen;
    if |trimmed| < MIN_OPTION_LENGTH || |trimmed| > MAX_OPTION_LENGTH {
      return false, trimmed, seen';
    }
    var normalized := ToLower(trimmed);
    if normalized in seen {
      return false, trimmed, seen';
    }
    seen' := seen + {normalized};
    ok := true;
  }

  /** The loop over the option texts of a creation request. */
  method SanitizeTexts(texts: seq<string>) returns (ok: bool, sanitized: seq<string>)
    ensures ok <==> AcceptableTexts(texts)
    ensures ok ==> |sanitized| == |texts| && forall i :: 0 <= i < |texts| ==> sanitized[i] == TrimSpace(texts[i])
  {
    sanitized := [];
    var seen := {};
    for i := 0 to |texts|
      invariant |sanitized| == i
      invariant forall k :: 0 <= k < i ==> sanitized[k] == TrimSpace(texts[k])
      invariant seen == Normalized(texts, i)
      invariant AcceptableTexts(texts[..i])
    {
      var accepted, trimmed, seen' := CheckText(texts[i], seen);
      TextAccepted(texts, i, accepted, seen);
      if !accepted {
        return false, sanitized;
      }
      seen := seen';
      sanitized := sanitized + [trimmed];
    }
    assert texts[..|texts|] == texts;
    ok := true;
  }

  /** Accepts exactly the acceptable requests, and returns them trimmed. */
  method ValidateCreatePoll(req: CreateRequest, now: int) returns (r: Result<(string, seq<string>), ()>)
    ensures r.Ok? <==> AcceptableCreate(req, now)
    ensures r.Ok? <==>
      && 3 <= |TrimSpace(req.question)| <= 255
      && 2 <= |req.options| <= 10
      && (forall i :: 0 <= i < |req.options| ==> 1 <= |TrimSpace(req.options[i])| <= 150)
      && (forall i, j :: 0 <= i < j < |req.options| ==>
            ToLower(TrimSpace(req.options[i])) != ToLower(TrimSpace(req.options[j])))
      && (req.expiresAt.None? || req.expiresAt.value > now)
    ensures r.Ok? ==>
      && r.value.0 == TrimSpace(req.question)
      && |r.value.1| == |req.options|
      && forall i :: 0 <= i < |req.options| ==> r.value.1[i] == TrimSpace(req.options[i])
  {
    var question := TrimSpace(req.question);
    if |question| < MIN_QUESTION_LENGTH || |question| > MAX_QUESTION_LENGTH {
      return Err(());
    }
    if |req.options| < MIN_OPTIONS_COUNT || |req.options| > MAX_OPTIONS_COUNT {
      return Err(());
    }
    var valid, sanitized := SanitizeTexts(req.options);
    if !valid {
      return Err(());
    }
    if req.expiresAt.Some? && !(req.expiresAt.value > now) {
      return Err(());
    }
    return Ok((question, sanitized));
  }

  ghost function Normalized(texts: seq<string>, n: nat): set<string>
    requires n <= |texts|
  {
    set k | 0 <= k < n :: ToLower(TrimSpace(texts[k]))
  }

  /** The check of text `i` decides whether the texts up to `i` are acceptable. */
  lemma TextAccepted(texts: seq<string>, i: nat, ok: bool, seen: set<string>)
    requires i < |texts| && AcceptableTexts(texts[..i])
    requires seen == Normalized(texts, i)
    requires var trimmed := TrimSpace(texts[i]);
      ok <==> MIN_OPTION_LENGTH <= |trimmed| <= MAX_OPTION_LENGTH && ToLower(trimmed) !in seen
    ensures ok ==> AcceptableTexts(texts[..i + 1])
    ensures Normalized(texts, i + 1) == seen + {ToLower(TrimSpace(texts[i]))}
    ensures !ok ==> !AcceptableTexts(texts)
  {
    if ok {
      var t := texts[..i + 1];
      forall a, b | 0 <= a < b < |t| ensures ToLower(TrimSpace(t[a])) != ToLower(TrimSpace(t[b])) {
        if b < i {
          assert texts[..i][a] == t[a] && texts[..i][b] == t[b];
        } else {
          assert ToLower(TrimSpace(texts[a])) in seen;
        }
      }
      forall a | 0 <= a < |t| ensures MIN_OPTION_LENGTH <= |TrimSpace(t[a])| <= MAX_OPTION_LENGTH {
        if a < i {
          assert texts[..i][a] == t[a];
        }
      }
    }
  }

  ghost predicate AcceptableOptions(options: seq<PollOption>, req: UpdateRequest) {
    && AcceptableTexts(Texts(req.options))
    && (HasIds(req) ==> forall i :: 0 <= i < |req.options| ==> TrimSpace(req.options[i].id) in Ids(options))
  }

  function ReplaceOne(option: PollOption, update: UpdateOption, byId: bool): PollOption {
    PollOption(if byId then TrimSpace(update.id) else option.id, TrimSpace(update.text))
  }

  function Replaced(options: seq<PollOption>, req: UpdateRequest): seq<PollOption>
    requires |req.options| == |options|
  {
    seq(|req.options|, i requires 0 <= i < |req.options| => ReplaceOne(options[i], req.options[i], HasIds(req)))
  }

  method UsesIds(req: UpdateRequest) returns (hasIds: bool)
    ensures hasIds == HasIds(req)
  {
    hasIds := false;
    for i := 0 to |req.options|
      invariant hasIds <==> exists k :: 0 <= k < i && TrimSpace(req.options[k].id) != ""
    {
      if TrimSpace(req.options[i].id) != "" {
        return true;
      }
    }
  }

  /** The first `n` entries of the request have passed their checks, and `seen` remembers their texts. */
  ghost predicate AcceptedUpTo(options: seq<PollOption>, req: UpdateRequest, n: nat, seen: set<string>)
    requires n <= |req.options|
  {
    && AcceptableTexts(Texts(req.options)[..n])
    && seen == Normalized(Texts(req.options), n)
    && (HasIds(req) ==> forall i :: 0 <= i < n ==> TrimSpace(req.options[i].id) in Ids(options))
  }

  /** The checks on entry `i` of an update. */
  method CheckEntry(options: seq<PollOption>, req: UpdateRequest, i: nat, hasIds: bool, seen: set<string>)
    returns (ok: bool, option: PollOption, seen': set<string>)
    requires |req.options| == |options| && i < |options| && hasIds == HasIds(req)
    requires AcceptedUpTo(options, req, i, seen)
    ensures ok ==> option == ReplaceOne(options[i], req.options[i], hasIds) && AcceptedUpTo(options, req, i + 1, seen')
    ensures !ok ==> !AcceptableOptions(options, req)
  {
    option, seen' := options[i], seen;
    if hasIds {
      var unknown := IsUnknown(options, req.options[i].id);
      if unknown {
        return false, option, seen';
      }
    }
    var ok', trimmed, s := CheckText(req.options[i].text, seen);
    TextAccepted(Texts(req.options), i, ok', seen);
    ok, seen' := ok', s;
    option := PollOption(if hasIds then TrimSpace(req.options[i].id) else options[i].id, trimmed);
  }

  /** Builds the replacement list, by ID or by position, or rejects the request. */
  method ReplaceOptions(options: seq<PollOption>, req: UpdateRequest) returns (ok: bool, updated: seq<PollOption>)
    requires |req.options| == |options|
    ensures ok <==> AcceptableOptions(options, req)
    ensures ok ==> updated == Replaced(options, req)
    ensures ok ==> |updated| == |options|
    ensures ok ==> forall i :: 0 <= i < |options| ==>
      && updated[i].text == TrimSpace(req.options[i].text)
      && updated[i].id
           == if exists k :: 0 <= k < |req.options| && TrimSpace(req.options[k].id) != ""
              then TrimSpace(req.options[i].id) else options[i].id
  {
    var hasIds := UsesIds(req);
    var seen := {};
    updated := [];
    for i := 0 to |req.options|
      invariant |updated| == i
      invariant forall k :: 0 <= k < i ==> updated[k] == ReplaceOne(options[k], req.options[k], hasIds)
      invariant AcceptedUpTo(options, req, i, seen)
    {
      var ok', option, seen' := CheckEntry(options, req, i, hasIds, seen);
      if !ok' {
        return false, updated;
      }
      seen := seen';
      updated := updated + [option];
    }
    assert Texts(req.options)[..|req.options|] == Texts(req.options);
    ok := true;
  }

  method IsUnknown(options: seq<PollOption>, id: string) returns (unknown: bool)
    ensures unknown <==> TrimSpace(id) !in Ids(options)
  {
    KnownIds(options, TrimSpace(id));
    unknown := TrimSpace(id) !in set o | o in options :: o.id;
  }

  /** Accepts exactly the acceptable updates. The copy it is given holds the updated poll on success;
      on failure an acceptable question has already been replaced. */
  method ValidateAndUpdatePoll(existing: Poll, req: UpdateRequest) returns (ok: bool)
    modifies existing
    ensures ok <==> AcceptableUpdate(old(existing.Doc()), req)
    ensures ok ==> existing.Doc() == Updated(old(existing.Doc()), req)
    ensures ok && req.question.Some? ==> existing.question == TrimSpace(req.question.value)
    ensures ok && req.question.None? ==> existing.question == old(existing.question)
    ensures ok && req.options == [] ==> existing.options == old(existing.options)
    ensures ok && req.options != [] ==>
      && |existing.options| == |req.options| == |old(existing.options)|
      && forall i :: 0 <= i < |req.options| ==> existing.options[i].text == TrimSpace(req.options[i].text)
    ensures !ok ==>
      var keeps := req.question.None? || !AcceptableQuestion(req.question.value);
      existing.Doc() == if keeps then old(existing.Doc()) else WithQuestion(old(existing.Doc()), req)
  {
    ghost var doc := existing.Doc();
    if req.question.None? && |req.options| == 0 {
      return false;
    }
    if req.question.Some? {
      var q := TrimSpace(req.question.value);
      if |q| < MIN_QUESTION_LENGTH || |q| > MAX_QUESTION_LENGTH {
        return false;
      }
      existing.question := q;
    }
    if |req.options| > 0 {
      if |req.options| != |existing.options| {
        return false;
      }
      var ok', updatedOptions := ReplaceOptions(existing.options, req);
      if !ok' {
        return false;
      }
      existing.options := updatedOptions;
    }
    return true;
  }

  /** What an acceptable update is: it changes something, each given text is within its limits once
      trimmed, no two option texts differ in case only, and every option is known if any is named. */
  lemma AcceptableUpdateIff(doc: PollDoc, req: UpdateRequest)
    ensures AcceptableUpdate(doc, req) <==>
      && (req.question.Some? || |req.options| > 0)
      && (req.question.None? || 3 <= |TrimSpace(req.question.value)| <= 255)
      && (|req.options| == 0 || |req.options| == |doc.options|)
      && (forall i :: 0 <= i < |req.options| ==> 1 <= |TrimSpace(req.options[i].text)| <= 150)
      && (forall i, j :: 0 <= i < j < |req.options| ==>
            ToLower(TrimSpace(req.options[i].text)) != ToLower(TrimSpace(req.options[j].text)))
      && ((forall i :: 0 <= i < |req.options| ==> TrimSpace(req.options[i].id) == "")
          || (forall i :: 0 <= i < |req.options| ==>
                exists k :: 0 <= k < |doc.options| && doc.options[k].id == TrimSpace(req.options[i].id)))
  {
    assert forall i :: 0 <= i < |req.options| ==> Texts(req.options)[i] == req.options[i].text;
    forall i | 0 <= i < |req.options|
      ensures TrimSpace(req.options[i].id) in Ids(doc.options)
         <==> exists k :: 0 <= k < |doc.options| && doc.options[k].id == TrimSpace(req.options[i].id)
    {
      KnownIds(doc.options, TrimSpace(req.options[i].id));
    }
  }

  /** What an update makes of the poll: the question and each option's text are those of the request,
      trimmed, where it has them; each option gets the ID of its entry if any entry names one; and
      nothing else changes. */
  lemma UpdateMeans(doc: PollDoc, req: UpdateRequest)
    requires AcceptableUpdate(doc, req)
    ensures var after := Updated(doc, req);
      && after == doc.(question := after.question, options := after.options)
      && after.question == (if req.question.Some? then TrimSpace(req.question.value) else doc.question)
      && (req.options == [] ==> after.options == doc.options)
      && (req.options != [] ==> |after.options| == |req.options| == |doc.options|)
      && var byId := exists k :: 0 <= k < |req.options| && TrimSpace(req.options[k].id) != "";
         forall i :: 0 <= i < |req.options| ==>
           && after.options[i].text == TrimSpace(req.options[i].text)
           && after.options[i].id == if byId then TrimSpace(req.options[i].id) else doc.options[i].id
  {
  }

  /** When the IDs in the request are distinct, the option with an entry's ID has that entry's text. */
  lemma TextsFollowIds(doc: PollDoc, req: UpdateRequest, i: nat, entry: nat)
    requires AcceptableUpdate(doc, req) && DistinctRequest(req) && HasIds(req)
    requires i < |doc.options| && entry < |req.options|
    requires Updated(doc, req).options[i].id == TrimSpace(req.options[entry].id)
    ensures Updated(doc, req).options[i].text == TrimSpace(req.options[entry].text)
  {
    assert Updated(doc, req).options[i] == ReplaceOne(doc.options[i], req.options[i], true);
    assert TrimSpace(req.options[i].id) == TrimSpace(req.options[entry].id);
    assert i == entry;
  }

  lemma KnownIds(options: seq<PollOption>, id: string)
    ensures id in Ids(options) <==> id in set o | o in options :: o.id
  {
    if id in Ids(options) {
      var i :| 0 <= i < |options| && Ids(options)[i] == id;
      assert options[i] in options;
    }
    if o :| o in options && o.id == id {
      var i :| 0 <= i < |options| && options[i] == o;
      assert Ids(options)[i] == id;
    }
  }

  // ----- option identity -----

  lemma {:induction false} DistinctMultiset(s: seq<string>, x: string)
    requires Distinct(s)
    ensures multiset(s)[x] == if x in s then 1 else 0
  {
    if s != [] {
      DistinctMultiset(s[1..], x);
      assert s == [s[0]] + s[1..];
      assert s[0] !in s[1..];
    }
  }

  /** The pigeonhole: a list without repetition, drawn from another of the same length, permutes it. */
  lemma DrawnAll(a: seq<string>, b: seq<string>)
    requires Distinct(a) && Distinct(b) && |a| == |b|
    requires forall x :: x in a ==> x in b
    ensures multiset(a) == multiset(b)
  {
    SetOfDistinct(a);
    SetOfDistinct(b);
    SubsetSize(Elems(a), Elems(b));
    forall x ensures multiset(a)[x] == multiset(b)[x] {
      DistinctMultiset(a, x);
      DistinctMultiset(b, x);
      assert x in a <==> x in Elems(a);
    }
  }

  lemma DistinctByMultiset(a: seq<string>, b: seq<string>)
    requires Distinct(b) && multiset(a) == multiset(b)
    ensures Distinct(a)
  {
    forall i, j | 0 <= i < j < |a| ensures a[i] != a[j] {
      if a[i] == a[j] {
        TwiceInMultiset(a, i, j);
        DistinctMultiset(b, a[i]);
      }
    }
  }

  lemma TwiceInMultiset(a: seq<string>, i: nat, j: nat)
    requires i < j < |a| && a[i] == a[j]
    ensures multiset(a)[a[i]] >= 2
  {
    assert a == a[..j] + [a[j]] + a[j + 1..];
    assert a[..j][i] == a[i];
    assert a[i] in multiset(a[..j]);
  }

  lemma UpdatedIds(doc: PollDoc, req: UpdateRequest)
    requires |req.options| == |doc.options| && req.options != [] && HasIds(req)
    ensures Ids(Updated(doc, req).options) == RequestIds(req.options)
  {
  }

  /** An accepted update by ID keeps the poll's option IDs, up to order, exactly when the IDs in
      the request are distinct. */
  lemma UpdateByIdKeepsIdsIffDistinct(doc: PollDoc, req: UpdateRequest)
    requires AcceptableUpdate(doc, req) && req.options != [] && HasIds(req) && Distinct(Ids(doc.options))
    ensures multiset(Ids(Updated(doc, req).options)) == multiset(Ids(doc.options))
       <==> Distinct(RequestIds(req.options))
  {
    var a := RequestIds(req.options);
    UpdatedIds(doc, req);
    if Distinct(a) {
      DrawnAll(a, Ids(doc.options));
    } else if multiset(a) == multiset(Ids(doc.options)) {
      DistinctByMultiset(a, Ids(doc.options));
    }
  }

  /** An update without IDs keeps them in place. */
  lemma PositionalUpdateKeepsIds(doc: PollDoc, req: UpdateRequest)
    requires AcceptableUpdate(doc, req) && !HasIds(req)
    ensures Ids(Updated(doc, req).options) == Ids(doc.options)
  {
  }

  predicate DistinctRequest(req: UpdateRequest) {
    HasIds(req) ==> forall i, j :: 0 <= i < j < |req.options| ==>
      TrimSpace(req.options[i].id) != TrimSpace(req.options[j].id)
  }

  lemma DistinctUpdateKeepsIds(doc: PollDoc, req: UpdateRequest)
    requires Distinct(Ids(doc.options)) && DistinctRequest(req) && AcceptableUpdate(doc, req)
    ensures multiset(Ids(Updated(doc, req).options)) == multiset(Ids(doc.options))
  {
    if req.options != [] && HasIds(req) {
      UpdateByIdKeepsIdsIffDistinct(doc, req);
    } else if req.options != [] {
      PositionalUpdateKeepsIds(doc, req);
    } else {
      assert Ids(Updated(doc, req).options) == Ids(doc.options);
    }
  }

  /** Applying a sequence of updates, where a rejected one changes nothing. */
  ghost function UpdateAll(doc: PollDoc, reqs: seq<UpdateRequest>): PollDoc {
    if reqs == [] then doc
    else
      var before := UpdateAll(doc, reqs[..|reqs| - 1]);
      var req := reqs[|reqs| - 1];
      if AcceptableUpdate(before, req) then Updated(before, req) else before
  }

  /** Option identity: over any sequence of updates whose ID-carrying requests name distinct IDs,
      the option IDs stay a permutation of the originals. */
  lemma {:induction false} OptionIdsSurviveUpdates(doc: PollDoc, reqs: seq<UpdateRequest>)
    requires Distinct(Ids(doc.options))
    requires forall req :: req in reqs ==> DistinctRequest(req)
    ensures Distinct(Ids(UpdateAll(doc, reqs).options))
    ensures multiset(Ids(UpdateAll(doc, reqs).options)) == multiset(Ids(doc.options))
  {
    if reqs != [] {
      var front, req := reqs[..|reqs| - 1], reqs[|reqs| - 1];
      OptionIdsSurviveUpdates(doc, front);
      assert req in reqs && forall r :: r in front ==> r in reqs;
      if AcceptableUpdate(UpdateAll(doc, front), req) {
        DistinctUpdateKeepsIds(UpdateAll(doc, front), req);
      }
      DistinctByMultiset(Ids(UpdateAll(doc, reqs).options), Ids(doc.options));
    }
  }
}
