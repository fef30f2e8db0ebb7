/**
 The creator's operations on one poll when they overlap: each loads the document, checks its copy,
 writes through a filter that knows only ID and deletion, and may read back and announce later.
 */
module PollRaces {
  import opened Common
  import opened PollValidation
  import opened PollLifecycle

  /** How far an admitted operation has come, with the copy it decided on. */
  datatype Stage = Holding(op: Op, copy: PollDoc) | Wrote(op: Op) | Over

  /** `announced` lists the operations that broadcast the closing, in order. */
  datatype Race = Race(doc: PollDoc, ops: map<nat, Stage>, announced: seq<nat>)

  datatype RaceStep = Start(i: nat, op: Op) | Write(i: nat) | Finish(i: nat)

  /** The checks an operation makes on its copy before it writes. */
  ghost predicate Passes(copy: PollDoc, op: Op)
    requires !op.Create?
  {
    match op
    case Update(_, _, update, _, _) => copy.status != Closed && AcceptableUpdate(copy, update)
    case SetStatus(_, _, status, _, _) => status.Some? && copy.status != status.value
    case Delete(_, _, _, _) => true
  }

  ghost predicate Starts(doc: PollDoc, op: Op) {
    !op.Create? && Admit(Store(map[doc.id := doc], []), op) == Ok(doc) && Passes(doc, op)
  }

  ghost predicate RaceEnabled(r: Race, step: RaceStep) {
    match step
    case Start(i, op) => i !in r.ops && Starts(r.doc, op)
    case Write(i) =>
      && i in r.ops && r.ops[i].Holding? && !r.ops[i].op.Create? && Passes(r.ops[i].copy, r.ops[i].op)
    case Finish(i) => i in r.ops && r.ops[i].Wrote?
  }

  /** The fields an operation sets in the stored document, whatever that has become since the load. */
  ghost function Written(doc: PollDoc, copy: PollDoc, op: Op): PollDoc
    requires !op.Create? && Passes(copy, op)
  {
    match op
    case Update(_, _, update, now, _) =>
      doc.(question := Updated(copy, update).question, options := Updated(copy, update).options, updatedAt := now)
    case SetStatus(_, _, status, now, _) => doc.(status := status.value, updatedAt := now)
    case Delete(_, _, now, _) => doc.(deleted := true, deletedAt := Some(now), updatedAt := now)
  }

  predicate Matches(r: Race, op: Op) {
    !r.doc.deleted && op.fault != WriteFails
  }

  predicate IsClose(op: Op) {
    op.SetStatus? && op.status == Some(Closed)
  }

  ghost function RaceApply(r: Race, step: RaceStep): Race
    requires RaceEnabled(r, step)
  {
    match step
    case Start(i, op) => r.(ops := r.ops[i := Holding(op, r.doc)])
    case Write(i) =>
      var Holding(op, copy) := r.ops[i];
      if !Matches(r, op) then r.(ops := r.ops[i := Over])
      else r.(doc := Written(r.doc, copy, op), ops := r.ops[i := Wrote(op)])
    case Finish(i) => r.(ops := r.ops[i := Over], announced := if Speaks(r, i) then r.announced + [i] else r.announced)
  }

  /** The closing is announced if the document can be read back, which a deleted one cannot. */
  predicate Speaks(r: Race, i: nat)
    requires i in r.ops && r.ops[i].Wrote?
  {
    IsClose(r.ops[i].op) && r.ops[i].op.fault != ReadBackFails && !r.doc.deleted
  }

  ghost predicate IsRace(r: Race, steps: seq<RaceStep>)
    decreases |steps|
  {
    steps != [] ==> RaceEnabled(r, steps[0]) && IsRace(RaceApply(r, steps[0]), steps[1..])
  }

  ghost function RaceRun(r: Race, steps: seq<RaceStep>): Race
    requires IsRace(r, steps)
    decreases |steps|
  {
    if steps == [] then r else RaceRun(RaceApply(r, steps[0]), steps[1..])
  }

  // ----- what no overlap breaks -----

  /** Copies are earlier states of the poll. */
  ghost predicate CopyOk(doc: PollDoc, stage: Stage) {
    stage.Holding? ==>
      && WellFormed(stage.copy) && |stage.copy.options| == |doc.options|
      && !stage.op.Create? && Passes(stage.copy, stage.op)
  }

  ghost predicate RaceInv(r: Race) {
    WellFormed(r.doc) && forall i :: i in r.ops ==> CopyOk(r.doc, r.ops[i])
  }

  lemma WrittenIsWellFormed(doc: PollDoc, copy: PollDoc, op: Op)
    requires WellFormed(doc) && !doc.deleted && CopyOk(doc, Holding(op, copy))
    ensures WellFormed(Written(doc, copy, op)) && Keeps(doc, Written(doc, copy, op))
  {
    if op.Update? {
      UpdatedIsWellFormed(copy, op.update);
    }
  }

  lemma RaceInvStep(r: Race, step: RaceStep)
    requires RaceInv(r) && RaceEnabled(r, step)
    ensures RaceInv(RaceApply(r, step)) && Keeps(r.doc, RaceApply(r, step).doc)
  {
    if step.Write? {
      assert CopyOk(r.doc, r.ops[step.i]);
      if Matches(r, r.ops[step.i].op) {
        WrittenIsWellFormed(r.doc, r.ops[step.i].copy, r.ops[step.i].op);
      }
    }
    var r' := RaceApply(r, step);
    forall i | i in r'.ops ensures CopyOk(r'.doc, r'.ops[i]) {
      if i in r.ops {
        assert CopyOk(r.doc, r.ops[i]);
      }
    }
  }

  /** However operations overlap, the poll stays well formed, keeps its creator, age, expiry and number
      of options, and a deleted one never changes again. */
  lemma {:induction false} OverlapsKeepThePoll(r: Race, steps: seq<RaceStep>)
    requires RaceInv(r) && IsRace(r, steps)
    ensures RaceInv(RaceRun(r, steps)) && Keeps(r.doc, RaceRun(r, steps).doc)
    decreases |steps|
  {
    if steps != [] {
      RaceInvStep(r, steps[0]);
      OverlapsKeepThePoll(RaceApply(r, steps[0]), steps[1..]);
    }
  }

  ghost predicate IdsOk(stage: Stage, ids: seq<string>) {
    stage.Holding? ==> IdRespecting(stage.op) && multiset(Ids(stage.copy.options)) == multiset(ids)
  }

  /** The option IDs stay a permutation of the originals under overlaps, too. */
  lemma {:induction false} OverlapsKeepOptionIds(r: Race, steps: seq<RaceStep>, ids: seq<string>)
    requires IsRace(r, steps) && Distinct(ids) && multiset(Ids(r.doc.options)) == multiset(ids)
    requires forall i :: i in r.ops ==> IdsOk(r.ops[i], ids)
    requires forall step :: step in steps && step.Start? ==> IdRespecting(step.op)
    ensures multiset(Ids(RaceRun(r, steps).doc.options)) == multiset(ids)
    decreases |steps|
  {
    if steps != [] {
      assert steps[0] in steps && forall t :: t in steps[1..] ==> t in steps;
      var r' := RaceApply(r, steps[0]);
      IdsRaceStep(r, steps[0], ids);
      OverlapsKeepOptionIds(r', steps[1..], ids);
    }
  }

  lemma IdsRaceStep(r: Race, step: RaceStep, ids: seq<string>)
    requires RaceEnabled(r, step) && Distinct(ids) && multiset(Ids(r.doc.options)) == multiset(ids)
    requires forall i :: i in r.ops ==> IdsOk(r.ops[i], ids)
    requires step.Start? ==> IdRespecting(step.op)
    ensures var r' := RaceApply(r, step);
      multiset(Ids(r'.doc.options)) == multiset(ids) && forall i :: i in r'.ops ==> IdsOk(r'.ops[i], ids)
  {
    if step.Write? && r.ops[step.i].op.Update? {
      var Holding(op, copy) := r.ops[step.i];
      assert IdsOk(r.ops[step.i], ids);
      DistinctByMultiset(Ids(copy.options), ids);
      DistinctUpdateKeepsIds(copy, op.update);
      assert Ids(RaceApply(r, step).doc.options)
        == if Matches(r, op) then Ids(Updated(copy, op.update).options) else Ids(r.doc.options);
    } else {
      assert Ids(RaceApply(r, step).doc.options) == Ids(r.doc.options);
    }
  }

  // ----- content written while the poll is closed -----

  ghost predicate StaysClosed(r: Race, steps: seq<RaceStep>)
    requires IsRace(r, steps)
    decreases |steps|
  {
    r.doc.status == Closed && (steps != [] ==> StaysClosed(RaceApply(r, steps[0]), steps[1..]))
  }

  predicate SameContent(a: PollDoc, b: PollDoc) {
    a.question == b.question && a.options == b.options
  }

  /** Operation `i` holds an update on a copy it loaded while the poll was open. */
  ghost predicate HoldsUpdate(r: Race, i: nat) {
    && i in r.ops && r.ops[i].Holding? && r.ops[i].op.Update?
    && r.ops[i].copy.status == Active && Passes(r.ops[i].copy, r.ops[i].op)
  }

  /** The document has the content that the held update wrote. */
  ghost predicate HasContentOf(doc: PollDoc, stage: Stage)
    requires stage.Holding? && stage.op.Update? && Passes(stage.copy, stage.op)
  {
    SameContent(doc, Updated(stage.copy, stage.op.update))
  }

  /** While a poll stays closed its content is what it was, or what an update wrote that had loaded
      the poll open before; so without such an update in flight it is constant. */
  lemma {:induction false} ClosedContentIsOfEarlierLoads(r: Race, steps: seq<RaceStep>)
    requires IsRace(r, steps) && StaysClosed(r, steps)
    ensures var doc := RaceRun(r, steps).doc;
      || SameContent(doc, r.doc)
      || exists i :: HoldsUpdate(r, i) && Write(i) in steps && HasContentOf(doc, r.ops[i])
    decreases |steps|
  {
    if steps != [] {
      var r' := RaceApply(r, steps[0]);
      ClosedContentIsOfEarlierLoads(r', steps[1..]);
      var doc := RaceRun(r', steps[1..]).doc;
      if i :| HoldsUpdate(r', i) && Write(i) in steps[1..] && HasContentOf(doc, r'.ops[i]) {
        assert HoldsUpdate(r, i) && r.ops[i] == r'.ops[i];
      } else if !SameContent(r'.doc, r.doc) {
        assert steps[0].Write? && HoldsUpdate(r, steps[0].i) && steps[0] in steps;
        assert HasContentOf(r'.doc, r.ops[steps[0].i]);
      }
    }
  }

  // ----- announcements -----

  function Flag(b: bool): nat {
    if b then 1 else 0
  }

  /** The step takes the poll from open to closed. */
  ghost predicate ClosesAt(r: Race, step: RaceStep)
    requires RaceEnabled(r, step)
  {
    r.doc.status == Active && RaceApply(r, step).doc.status == Closed
  }

  /** The step writes the closing of a poll that is closed already. */
  ghost predicate ClosesAgainAt(r: Race, step: RaceStep)
    requires RaceEnabled(r, step)
  {
    step.Write? && IsClose(r.ops[step.i].op) && Matches(r, r.ops[step.i].op) && r.doc.status == Closed
  }

  /** The step ends a close that wrote, without announcing it. */
  ghost predicate MutesAt(r: Race, step: RaceStep)
    requires RaceEnabled(r, step)
  {
    step.Finish? && IsClose(r.ops[step.i].op) && !Speaks(r, step.i)
  }

  ghost function Closings(r: Race, steps: seq<RaceStep>): nat
    requires IsRace(r, steps)
    decreases |steps|
  {
    if steps == [] then 0 else Flag(ClosesAt(r, steps[0])) + Closings(RaceApply(r, steps[0]), steps[1..])
  }

  ghost function Repeats(r: Race, steps: seq<RaceStep>): nat
    requires IsRace(r, steps)
    decreases |steps|
  {
    if steps == [] then 0 else Flag(ClosesAgainAt(r, steps[0])) + Repeats(RaceApply(r, steps[0]), steps[1..])
  }

  ghost function Mutes(r: Race, steps: seq<RaceStep>): nat
    requires IsRace(r, steps)
    decreases |steps|
  {
    if steps == [] then 0 else Flag(MutesAt(r, steps[0])) + Mutes(RaceApply(r, steps[0]), steps[1..])
  }

  /** Closes that have written and not yet ended. */
  function Unannounced(r: Race): set<nat> {
    set i | i in r.ops && r.ops[i].Wrote? && IsClose(r.ops[i].op)
  }

  lemma UnannouncedStep(r: Race, step: RaceStep)
    requires RaceEnabled(r, step)
    ensures |Unannounced(RaceApply(r, step))| + Flag(step.Finish? && step.i in Unannounced(r))
         == |Unannounced(r)| + Flag(ClosesAt(r, step)) + Flag(ClosesAgainAt(r, step))
  {
    var a, b := Unannounced(r), Unannounced(RaceApply(r, step));
    forall q | q != step.i ensures q in a <==> q in b {
      OtherOps(r, step, q);
    }
    OneInSets(a, b, step.i);
    WritesACloseIff(r, step);
  }

  lemma OtherOps(r: Race, step: RaceStep, q: nat)
    requires RaceEnabled(r, step) && q != step.i
    ensures q in RaceApply(r, step).ops <==> q in r.ops
    ensures q in r.ops ==> RaceApply(r, step).ops[q] == r.ops[q]
  {
  }

  lemma OneInSets(a: set<nat>, b: set<nat>, x: nat)
    requires forall q :: q != x ==> (q in a <==> q in b)
    ensures |b| + Flag(x in a) == |a| + Flag(x in b)
  {
    assert a - {x} == b - {x};
    assert |a| == |a - {x}| + Flag(x in a);
    assert |b| == |b - {x}| + Flag(x in b);
  }

  /** A close that writes closes an open poll or a closed one, and nothing else closes it. */
  lemma WritesACloseIff(r: Race, step: RaceStep)
    requires RaceEnabled(r, step)
    ensures step.i in Unannounced(RaceApply(r, step)) && step.i !in Unannounced(r)
      <==> ClosesAt(r, step) || ClosesAgainAt(r, step)
    ensures !(ClosesAt(r, step) && ClosesAgainAt(r, step))
    ensures step.i in Unannounced(RaceApply(r, step)) ==> step.i !in Unannounced(r)
    ensures step.i in Unannounced(r) ==> step.Finish?
  {
  }

  /** In every overlap the announcements are the closings, and once more every close that wrote to a
      poll already closed, less those that could not read the document back and those still to end. */
  lemma {:induction false} AnnouncementsUnderOverlap(r: Race, steps: seq<RaceStep>)
    requires IsRace(r, steps)
    ensures |RaceRun(r, steps).announced| + Mutes(r, steps) + |Unannounced(RaceRun(r, steps))|
         == |r.announced| + |Unannounced(r)| + Closings(r, steps) + Repeats(r, steps)
    decreases |steps|
  {
    if steps != [] {
      UnannouncedStep(r, steps[0]);
      AnnouncementsUnderOverlap(RaceApply(r, steps[0]), steps[1..]);
    }
  }

  // ----- one at a time, and two at once -----

  /** An operation that nothing overlaps does to the document, and announces, what the sequential one does. */
  lemma UndisturbedIsExec(r: Race, i: nat, op: Op)
    requires Starts(r.doc, op) && i !in r.ops
    ensures var r' := RaceApply(RaceApply(r, Start(i, op)), Write(i));
      var (st, _) := ExecOwner(Store(map[r.doc.id := r.doc], []), op);
      && st.docs == map[r.doc.id := r'.doc]
      && (r'.ops[i].Wrote? && Speaks(r', i) <==> st.broadcasts != [])
  {
    var r' := RaceApply(RaceApply(r, Start(i, op)), Write(i));
    var st := Store(map[r.doc.id := r.doc], []);
    LoadedIsThere(r.doc, op);
    PassesAmends(r.doc, op);
    assert st.docs[r.doc.id := r'.doc] == map[r.doc.id := r'.doc];
  }

  lemma LoadedIsThere(doc: PollDoc, op: Op)
    requires Starts(doc, op)
    ensures !doc.deleted && op.fault != ReadFails
  {
  }

  lemma PassesAmends(doc: PollDoc, op: Op)
    requires !op.Create? && Passes(doc, op)
    ensures Amend(doc, op) == if op.fault == WriteFails then Err(StoreFailed) else Ok(Written(doc, doc, op))
  {
  }

  lemma OneMore(r: Race, step: RaceStep, rest: seq<RaceStep>)
    requires RaceEnabled(r, step) && IsRace(RaceApply(r, step), rest)
    ensures IsRace(r, [step] + rest) && RaceRun(r, [step] + rest) == RaceRun(RaceApply(r, step), rest)
  {
    assert ([step] + rest)[1..] == rest;
  }

  /** Two operations that both load the poll and then write, the second one first. */
  lemma TwoAtOnce(r: Race, i: nat, first: Op, j: nat, second: Op)
    requires i != j && i !in r.ops && j !in r.ops && Starts(r.doc, first) && Starts(r.doc, second)
    ensures var steps := [Start(i, first), Start(j, second), Write(j), Write(i)];
      var both := r.(ops := r.ops[i := Holding(first, r.doc)][j := Holding(second, r.doc)]);
      IsRace(r, steps) && RaceRun(r, steps) == RaceApply(RaceApply(both, Write(j)), Write(i))
  {
    var r1 := RaceApply(r, Start(i, first));
    var r2 := RaceApply(r1, Start(j, second));
    var r3 := RaceApply(r2, Write(j));
    OneMore(r3, Write(i), []);
    OneMore(r2, Write(j), [Write(i)] + []);
    OneMore(r1, Start(j, second), [Write(j)] + ([Write(i)] + []));
    OneMore(r, Start(i, first), [Start(j, second)] + ([Write(j)] + ([Write(i)] + [])));
    assert [Start(i, first), Start(j, second), Write(j), Write(i)]
      == [Start(i, first)] + ([Start(j, second)] + ([Write(j)] + ([Write(i)] + [])));
  }

  /** Whatever open poll it is: an update that loaded it before a close writes its content after it. */
  lemma UpdateLandsAfterClose(r: Race, i: nat, j: nat, update: Op, close: Op)
    requires i != j && i !in r.ops && j !in r.ops && Starts(r.doc, update) && Starts(r.doc, close)
    requires update.Update? && IsClose(close) && update.fault == NoFault && close.fault == NoFault
    ensures var steps := [Start(i, update), Start(j, close), Write(j), Write(i)];
      && IsRace(r, steps)
      && RaceRun(r, steps).doc.status == Closed
      && SameContent(RaceRun(r, steps).doc, Updated(r.doc, update.update))
  {
    LoadedIsThere(r.doc, close);
    TwoAtOnce(r, i, update, j, close);
  }

  /** And two closes that both loaded it open write, and will announce, one closing twice. */
  lemma OverlappingClosesRepeat(r: Race, i: nat, j: nat, close: Op)
    requires i != j && i !in r.ops && j !in r.ops && Starts(r.doc, close) && IsClose(close) && close.fault == NoFault
    ensures var steps := [Start(i, close), Start(j, close), Write(j), Write(i)];
      && IsRace(r, steps)
      && RaceRun(r, steps).doc.status == Closed
      && {i, j} <= Unannounced(RaceRun(r, steps)) && Speaks(RaceRun(r, steps), i) && Speaks(RaceRun(r, steps), j)
  {
    LoadedIsThere(r.doc, close);
    TwoAtOnce(r, i, close, j, close);
  }
}
