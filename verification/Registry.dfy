/** The manager's registry of hubs, composed with every hub it ever created. */
module Registry {
  import opened Common
  import opened Hub

  datatype Entry = Entry(poll: string, hub: Hub)

  /** `toStop` holds the hubs a Shutdown has taken out of the map and not yet stopped. */
  datatype Registry = Registry(mapped: map<string, nat>, hubs: map<nat, Entry>, toStop: set<nat>, shutdown: bool)

  const EMPTY_REGISTRY := Registry(map[], map[], {}, false)

  datatype RegStep =
    | GetOrCreate(poll: string, newHub: nat)
    | InHub(hub: nat, step: HubStep)     // a step of one hub, other than Stop
    | RunStops(hub: nat)                 // Run's deferred Stop closes done
    | RemoveHub(hub: nat)                // Stop's call back into the manager
    | Shutdown                           // empties the map
    | ShutdownStops(hub: nat)            // Shutdown's call of Stop on one hub

  predicate Live(e: Entry) {
    e.hub.stop == NotStarted
  }

  /** The hub GetOrCreateHub returns without creating one. */
  predicate Reusable(r: Registry, poll: string) {
    poll in r.mapped && r.mapped[poll] in r.hubs && Live(r.hubs[r.mapped[poll]])
  }

  ghost predicate RegEnabled(r: Registry, step: RegStep) {
    match step
    case GetOrCreate(poll, newHub) => Reusable(r, poll) || newHub !in r.hubs
    case InHub(k, st) => k in r.hubs && !st.StopBegin? && !st.StopEnd? && HubEnabled(r.hubs[k].hub, st)
    case RunStops(k) => k in r.hubs && HubEnabled(r.hubs[k].hub, StopBegin(false))
    case RemoveHub(k) => k in r.hubs && HubEnabled(r.hubs[k].hub, StopEnd)
    case Shutdown => true
    case ShutdownStops(k) => k in r.toStop && k in r.hubs
  }

  ghost function SetHub(r: Registry, k: nat, st: HubStep): Registry
    requires k in r.hubs && HubEnabled(r.hubs[k].hub, st)
  {
    r.(hubs := r.hubs[k := Entry(r.hubs[k].poll, HubApply(r.hubs[k].hub, st))])
  }

  ghost function RegApply(r: Registry, step: RegStep): Registry
    requires RegEnabled(r, step)
  {
    match step
    case GetOrCreate(poll, k) =>
      if Reusable(r, poll) then r
      else r.(mapped := r.mapped[poll := k], hubs := r.hubs[k := Entry(poll, NEW_HUB)])
    case InHub(k, st) => SetHub(r, k, st)
    case RunStops(k) => SetHub(r, k, StopBegin(false))
    case RemoveHub(k) => SetHub(r, k, StopEnd).(mapped := Without(r.mapped, r.hubs[k].poll, k))
    case Shutdown => r.(mapped := map[], toStop := r.toStop + r.mapped.Values, shutdown := true)
    case ShutdownStops(k) =>
      var r' := r.(toStop := r.toStop - {k});
      if Live(r.hubs[k]) then SetHub(r', k, StopBegin(true)) else r'
  }

  ghost predicate IsRegRun(r: Registry, steps: seq<RegStep>)
    decreases |steps|
  {
    steps != [] ==> RegEnabled(r, steps[0]) && IsRegRun(RegApply(r, steps[0]), steps[1..])
  }

  ghost function RegRun(r: Registry, steps: seq<RegStep>): Registry
    requires IsRegRun(r, steps)
    decreases |steps|
  {
    if steps == [] then r else RegRun(RegApply(r, steps[0]), steps[1..])
  }

  predicate IsMapped(r: Registry, k: nat)
    requires k in r.hubs
  {
    r.hubs[k].poll in r.mapped && r.mapped[r.hubs[k].poll] == k
  }

  /** What holds of one hub in the registry: while it is live it is mapped, unless a Shutdown has
      taken it out and has still to stop it. */
  ghost predicate EntryOk(r: Registry, k: nat)
    requires k in r.hubs
  {
    var e := r.hubs[k];
    && HubInv(e.hub)
    && (e.hub.external ==> r.shutdown)
    && (Live(e) ==> k in r.toStop || IsMapped(r, k))
    && (e.hub.stop == Finished ==> !IsMapped(r, k))
  }

  ghost predicate RegInv(r: Registry) {
    && (forall k :: k in r.hubs ==> EntryOk(r, k))
    && MapOk(r)
  }

  /** Mapped hubs belong to their poll, and none of them waits for a Shutdown to stop it. */
  ghost predicate MapOk(r: Registry) {
    && (forall p :: p in r.mapped ==>
          r.mapped[p] in r.hubs && r.hubs[r.mapped[p]].poll == p && r.mapped[p] !in r.toStop)
    && r.toStop <= r.hubs.Keys
    && (r.toStop != {} ==> r.shutdown)
  }

  /** The step, if any, that a registry step is for the hub `k`. */
  function OwnStep(r: Registry, step: RegStep, k: nat): (st: seq<HubStep>)
    ensures |st| <= 1
  {
    match step
    case InHub(j, st) => if j == k then [st] else []
    case RunStops(j) => if j == k then [StopBegin(false)] else []
    case RemoveHub(j) => if j == k then [StopEnd] else []
    case ShutdownStops(j) => if j == k && k in r.hubs && Live(r.hubs[k]) then [StopBegin(true)] else []
    case _ => []
  }

  lemma OwnHub(r: Registry, step: RegStep, k: nat)
    requires RegEnabled(r, step) && k in r.hubs
    ensures k in RegApply(r, step).hubs && RegApply(r, step).hubs[k].poll == r.hubs[k].poll
    ensures var own := OwnStep(r, step, k);
      if own == [] then RegApply(r, step).hubs[k] == r.hubs[k]
      else HubEnabled(r.hubs[k].hub, own[0]) && RegApply(r, step).hubs[k].hub == HubApply(r.hubs[k].hub, own[0])
  {
  }

  /** What a hub's own step does to its stopping. */
  lemma StoppingStep(h: Hub, st: HubStep)
    requires HubEnabled(h, st)
    ensures var h' := HubApply(h, st);
      && (h'.stop == NotStarted <==> h.stop == NotStarted && !st.StopBegin?)
      && (h'.external <==> h.external || st == StopBegin(true))
      && (h'.stop == Finished <==> h.stop == Finished || st == StopEnd)
  {
  }

  /** The effect of a step on one hub, as that hub sees it. */
  lemma EntryStep(r: Registry, step: RegStep, k: nat)
    requires RegEnabled(r, step) && k in r.hubs && HubInv(r.hubs[k].hub)
    ensures k in RegApply(r, step).hubs
    ensures var e, e' := r.hubs[k], RegApply(r, step).hubs[k];
      && HubInv(e'.hub) && e'.poll == e.poll
      && (Live(e') <==> Live(e) && step != RunStops(k) && step != ShutdownStops(k))
      && (e'.hub.external ==> e.hub.external || step == ShutdownStops(k))
      && (e'.hub.stop == Finished <==> e.hub.stop == Finished || step == RemoveHub(k))
  {
    OwnHub(r, step, k);
    var own := OwnStep(r, step, k);
    if own != [] {
      HubInvStep(r.hubs[k].hub, own[0]);
      StoppingStep(r.hubs[k].hub, own[0]);
    }
  }

  /** Hubs come into being new, and only in GetOrCreateHub. */
  lemma NewEntry(r: Registry, step: RegStep, k: nat)
    requires RegEnabled(r, step) && k !in r.hubs && k in RegApply(r, step).hubs
    ensures step.GetOrCreate? && k == step.newHub && RegApply(r, step).hubs[k] == Entry(step.poll, NEW_HUB)
    ensures IsMapped(RegApply(r, step), k)
  {
  }

  /** How a step moves the map and the hubs waiting to be stopped. */
  lemma MapStep(r: Registry, step: RegStep)
    requires RegEnabled(r, step) && MapOk(r)
    requires forall k :: k in r.hubs ==> EntryOk(r, k)
    ensures MapOk(RegApply(r, step))
  {
    var r' := RegApply(r, step);
    forall k | k in r.hubs ensures k in r'.hubs && r'.hubs[k].poll == r.hubs[k].poll {
      EntryStep(r, step, k);
    }
  }

  lemma RegInvStep(r: Registry, step: RegStep)
    requires RegInv(r) && RegEnabled(r, step)
    ensures RegInv(RegApply(r, step))
  {
    var r' := RegApply(r, step);
    forall k | k in r'.hubs ensures EntryOk(r', k) {
      if k in r.hubs {
        assert EntryOk(r, k);
        EntryStep(r, step, k);
        MappingStep(r, step, k);
      } else {
        NewEntry(r, step, k);
        NewHubHolds();
      }
    }
    MapStep(r, step);
  }

  /** How a step moves one hub in or out of the map. */
  lemma MappingStep(r: Registry, step: RegStep, k: nat)
    requires RegInv(r) && RegEnabled(r, step) && k in r.hubs && k in RegApply(r, step).hubs
    requires RegApply(r, step).hubs[k].poll == r.hubs[k].poll
    ensures var r' := RegApply(r, step);
      && r'.shutdown == (r.shutdown || step == Shutdown)
      && (IsMapped(r', k) ==> IsMapped(r, k) && step != RemoveHub(k))
      && (Live(r.hubs[k]) && step != ShutdownStops(k) && (k in r.toStop || IsMapped(r, k)) && step != RemoveHub(k)
          ==> k in r'.toStop || IsMapped(r', k))
      && (k in r'.toStop ==> k in r.toStop || (step == Shutdown && IsMapped(r, k)))
  {
    assert EntryOk(r, k);
  }

  lemma {:induction false} RegInvRun(r: Registry, steps: seq<RegStep>)
    requires RegInv(r) && IsRegRun(r, steps)
    ensures RegInv(RegRun(r, steps))
    ensures Shutdown !in steps ==> RegRun(r, steps).shutdown == r.shutdown
    decreases |steps|
  {
    if steps != [] {
      RegInvStep(r, steps[0]);
      RegInvRun(RegApply(r, steps[0]), steps[1..]);
    }
  }

  /** A live hub of the poll that the map does not know. */
  predicate HasStray(r: Registry, poll: string) {
    exists k :: k in r.hubs && r.hubs[k].poll == poll && Live(r.hubs[k]) && !IsMapped(r, k)
  }

  /** One live hub per poll, in every run, with or without Shutdown: a poll has at most one live hub
      beside those a Shutdown took out of the map and has still to stop; it has a live hub that is
      not the mapped one if and only if one of those is its own; so when none waits to be stopped,
      and always before a Shutdown, a poll has at most one live hub and it is the mapped one. */
  lemma OneLiveHubPerPoll(steps: seq<RegStep>, poll: string)
    requires IsRegRun(EMPTY_REGISTRY, steps)
    ensures var r := RegRun(EMPTY_REGISTRY, steps);
      && (forall k :: k in r.hubs && Live(r.hubs[k]) ==> (IsMapped(r, k) <==> k !in r.toStop))
      && (HasStray(r, poll) <==> exists k :: k in r.toStop && k in r.hubs && r.hubs[k].poll == poll && Live(r.hubs[k]))
      && (!HasStray(r, poll) ==> forall k, j | k in r.hubs && j in r.hubs && Live(r.hubs[k]) && Live(r.hubs[j]) ::
            r.hubs[k].poll == poll == r.hubs[j].poll ==> k == j)
      && (r.toStop == {} ==> !HasStray(r, poll))
      && (Shutdown !in steps ==> r.toStop == {})
  {
    RegInvRun(EMPTY_REGISTRY, steps);
    var r := RegRun(EMPTY_REGISTRY, steps);
    forall k | k in r.hubs && Live(r.hubs[k]) ensures IsMapped(r, k) <==> k !in r.toStop {
      assert EntryOk(r, k);
    }
  }

  lemma LiveUntilStopped(r: Registry, step: RegStep, k: nat)
    requires RegInv(r) && RegEnabled(r, step) && step != RunStops(k)
    requires k in r.hubs && Live(r.hubs[k]) && k !in r.toStop && step != Shutdown
    ensures var r' := RegApply(r, step);
      k in r'.hubs && Live(r'.hubs[k]) && r'.hubs[k].poll == r.hubs[k].poll && k !in r'.toStop
  {
    assert EntryOk(r, k);
    EntryStep(r, step, k);
    MappingStep(r, step, k);
  }

  /** A live hub that no Shutdown has taken stays the mapped one until its own Run stops it:
      whatever other hubs do meanwhile, no late removal by an older hub of the poll evicts it. */
  lemma {:induction false} LateRemovalKeepsNewerHub(r: Registry, steps: seq<RegStep>, k: nat)
    requires RegInv(r) && IsRegRun(r, steps) && Shutdown !in steps
    requires k in r.hubs && Live(r.hubs[k]) && k !in r.toStop && RunStops(k) !in steps
    ensures var r' := RegRun(r, steps);
      k in r'.hubs && Live(r'.hubs[k]) && r'.hubs[k].poll == r.hubs[k].poll && IsMapped(r', k)
    decreases |steps|
  {
    if steps == [] {
      assert EntryOk(r, k);
    } else {
      LiveUntilStopped(r, steps[0], k);
      RegInvStep(r, steps[0]);
      LateRemovalKeepsNewerHub(RegApply(r, steps[0]), steps[1..], k);
    }
  }

  /** In every run, a hub that closed `done` before any Shutdown holds no client, and a hub whose
      Run has returned holds no client and is no longer mapped. */
  lemma HubsEndEmptyAndUnmapped(steps: seq<RegStep>, k: nat)
    requires IsRegRun(EMPTY_REGISTRY, steps) && k in RegRun(EMPTY_REGISTRY, steps).hubs
    ensures var r := RegRun(EMPTY_REGISTRY, steps);
      var e := r.hubs[k];
      && (Shutdown !in steps && !Live(e) ==> e.hub.clients == {})
      && (e.hub.loop == Returned ==> e.hub.clients == {} && !IsMapped(r, k))
  {
    RegInvRun(EMPTY_REGISTRY, steps);
    assert EntryOk(RegRun(EMPTY_REGISTRY, steps), k);
  }

  /** During a Shutdown a poll can briefly have two live hubs: one taken out of the map and not yet
      stopped, and the one created for the next viewer. */
  lemma ShutdownAllowsTwoLiveHubs()
    ensures var steps := [GetOrCreate("p", 0), Shutdown, GetOrCreate("p", 1)];
      && IsRegRun(EMPTY_REGISTRY, steps)
      && var r := RegRun(EMPTY_REGISTRY, steps);
      && 0 in r.hubs && 1 in r.hubs && r.hubs[0].poll == r.hubs[1].poll && Live(r.hubs[0]) && Live(r.hubs[1])
  {
    var steps := [GetOrCreate("p", 0), Shutdown, GetOrCreate("p", 1)];
    var r1 := RegApply(EMPTY_REGISTRY, steps[0]);
    var r2 := RegApply(r1, steps[1]);
    var r3 := RegApply(r2, steps[2]);
    assert steps[1..][1..] == [GetOrCreate("p", 1)];
    assert steps[1..][1..][1..] == [];
    assert IsRegRun(r2, steps[1..][1..]);
    assert IsRegRun(r1, steps[1..]);
    assert RegRun(r2, steps[1..][1..]) == r3;
    assert RegRun(r1, steps[1..]) == r3;
  }

  /** GetOrCreateHub leaves the poll with a live, mapped hub: the present one if it is live, in which
      case nothing changes, and otherwise a new one, and no other poll's entry and no other hub changes. */
  lemma GetOrCreateGivesALiveHub(r: Registry, poll: string, newHub: nat)
    requires RegInv(r) && RegEnabled(r, GetOrCreate(poll, newHub))
    ensures var r' := RegApply(r, GetOrCreate(poll, newHub));
      && poll in r'.mapped && r'.mapped[poll] in r'.hubs
      && var hub := r'.hubs[r'.mapped[poll]];
      && hub.poll == poll && hub.hub.stop == NotStarted
      && (poll in r.mapped && r.mapped[poll] in r.hubs && r.hubs[r.mapped[poll]].hub.stop == NotStarted ==> r' == r)
      && (forall p :: p != poll ==>
            (p in r'.mapped <==> p in r.mapped) && (p in r.mapped ==> r'.mapped[p] == r.mapped[p]))
      && (forall k :: k in r.hubs ==> k in r'.hubs && r'.hubs[k] == r.hubs[k])
  {
  }

  /** A hub whose loop is left returns by itself, and by then is out of the map, whatever the registry
      holds. */
  lemma HubLeavesRegistry(r: Registry, k: nat) returns (steps: seq<RegStep>)
    requires RegInv(r) && k in r.hubs && r.hubs[k].hub.loop == Leaving
    ensures IsRegRun(r, steps) && forall step :: step in steps ==> step in {RunStops(k), RemoveHub(k), InHub(k, Drain)}
    ensures var r' := RegRun(r, steps);
      && k in r'.hubs
      && r'.hubs[k].hub.loop == Returned && r'.hubs[k].hub.stop == Finished && r'.hubs[k].hub.clients == {}
      && !(r'.hubs[k].poll in r'.mapped && r'.mapped[r'.hubs[k].poll] == k)
    decreases var stop := r.hubs[k].hub.stop; if stop == NotStarted then 2 else if stop == Removing then 1 else 0
  {
    var h := r.hubs[k].hub;
    assert EntryOk(r, k);
    var first :=
      if h.stop == NotStarted then RunStops(k) else if h.stop == Removing then RemoveHub(k) else InHub(k, Drain);
    RegInvStep(r, first);
    var r1 := RegApply(r, first);
    var rest := [];
    if h.stop != Finished {
      rest := HubLeavesRegistry(r1, k);
    } else {
      assert EntryOk(r1, k);
    }
    steps := [first] + rest;
    assert steps[1..] == rest;
  }

  /** The part of a Shutdown after the map has been emptied: it stops the hubs it took out, one by one. */
  lemma {:induction false} ShutdownStopsAll(r: Registry) returns (steps: seq<RegStep>)
    requires RegInv(r)
    ensures IsRegRun(r, steps) && forall step :: step in steps ==> step.ShutdownStops?
    ensures var r' := RegRun(r, steps);
      && r'.toStop == {} && r'.mapped == r.mapped
      && forall k :: k in r.toStop ==> k in r'.hubs && r'.hubs[k].hub.stop != NotStarted
    decreases |r.toStop|
  {
    if r.toStop == {} {
      steps := [];
    } else {
      var k :| k in r.toStop;
      var r1 := RegApply(r, ShutdownStops(k));
      StopsOne(r, k);
      var rest := ShutdownStopsAll(r1);
      steps := [ShutdownStops(k)] + rest;
      assert steps[1..] == rest;
      StaysStopped(r1, rest, k);
    }
  }

  lemma StopsOne(r: Registry, k: nat)
    requires RegInv(r) && k in r.toStop
    ensures RegEnabled(r, ShutdownStops(k))
    ensures var r' := RegApply(r, ShutdownStops(k));
      && RegInv(r') && r'.toStop == r.toStop - {k} && r'.mapped == r.mapped
      && k in r'.hubs && r'.hubs[k].hub.stop != NotStarted
  {
    RegInvStep(r, ShutdownStops(k));
  }

  lemma {:induction false} StaysStopped(r: Registry, steps: seq<RegStep>, k: nat)
    requires RegInv(r) && IsRegRun(r, steps) && k in r.hubs && !Live(r.hubs[k])
    ensures k in RegRun(r, steps).hubs && !Live(RegRun(r, steps).hubs[k])
    decreases |steps|
  {
    if steps != [] {
      assert EntryOk(r, k);
      EntryStep(r, steps[0], k);
      RegInvStep(r, steps[0]);
      StaysStopped(RegApply(r, steps[0]), steps[1..], k);
    }
  }

  /** A Shutdown that nobody interrupts leaves an empty map and, in whatever state it begins, every
      hub there is with `done` closed. */
  lemma ShutdownStopsEveryHub(r: Registry) returns (steps: seq<RegStep>)
    requires RegInv(r)
    ensures IsRegRun(r, [Shutdown] + steps) && forall step :: step in steps ==> step.ShutdownStops?
    ensures var r' := RegRun(r, [Shutdown] + steps);
      r'.mapped == map[] && forall k :: k in r.hubs ==> k in r'.hubs && r'.hubs[k].hub.stop != NotStarted
  {
    var r1 := RegApply(r, Shutdown);
    RegInvStep(r, Shutdown);
    steps := ShutdownStopsAll(r1);
    assert ([Shutdown] + steps)[1..] == steps;
    forall k | k in r.hubs ensures k in RegRun(r1, steps).hubs && !Live(RegRun(r1, steps).hubs[k]) {
      assert EntryOk(r, k) && EntryOk(r1, k);
      if !Live(r1.hubs[k]) {
        StaysStopped(r1, steps, k);
      }
    }
  }
}
