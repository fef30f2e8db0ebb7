/** The hub and its manager as objects: the arms of `Run` and the registry methods on mutable state. */
module PollHub {
  import opened Common
  import opened VoteLog
  import Hub

  /** A connection; `id` is the name the state machine knows it by. */
  class Client {
    const id: nat
    var send: Hub.Chan

    constructor (id: nat)
      ensures this.id == id && send == Hub.NEW_CHAN
    {
      this.id := id;
      send := Hub.NEW_CHAN;
    }
  }

  /** What the select statement of Run picks next; `Done` follows a Stop from outside. */
  datatype Arm = Register(client: Client) | Unregister(client: Client) | Broadcast(frame: Frame) | Done

  function ClientsOf(arms: seq<Arm>): set<Client> {
    set a | a in arms && (a.Register? || a.Unregister?) :: a.client
  }

  // ----- what Run does, in terms of the state machine -----

  /** The steps of the machine that an arm stands for. */
  function ArmSteps(arm: Arm): seq<Hub.HubStep> {
    match arm
    case Register(c) => [Hub.TakeRegister(c.id)]
    case Unregister(c) => [Hub.TakeUnregister(c.id)]
    case Broadcast(f) => [Hub.Enqueue(f), Hub.TakeBroadcast]
    case Done => [Hub.StopBegin(true), Hub.StopEnd, Hub.TakeDone]
  }

  /** The deferred function of Run; Stop has an effect only the first time. */
  function LastSteps(h: Hub.Hub): seq<Hub.HubStep> {
    if h.stop == Hub.NotStarted then [Hub.StopBegin(false), Hub.StopEnd, Hub.Drain] else [Hub.Drain]
  }

  /** The steps of a whole execution of Run: its arms in order, then its deferred function. */
  ghost function StepsOf(h: Hub.Hub, arms: seq<Arm>): seq<Hub.HubStep>
    requires Executes(h, arms)
    decreases |arms|
  {
    if arms == [] then LastSteps(h)
    else ArmSteps(arms[0]) + StepsOf(Hub.HubRun(h, ArmSteps(arms[0])), arms[1..])
  }

  /** The arms are a complete execution: each can be taken, and the loop is left by the last one. */
  ghost predicate Executes(h: Hub.Hub, arms: seq<Arm>)
    decreases |arms|
  {
    if arms == [] then h.loop == Hub.Leaving && Hub.IsHubRun(h, LastSteps(h))
    else
      && h.loop == Hub.Looping && Hub.IsHubRun(h, ArmSteps(arms[0]))
      && Executes(Hub.HubRun(h, ArmSteps(arms[0])), arms[1..])
  }

  lemma {:induction false} HubRunConcat(h: Hub.Hub, a: seq<Hub.HubStep>, b: seq<Hub.HubStep>)
    requires Hub.IsHubRun(h, a) && Hub.IsHubRun(Hub.HubRun(h, a), b)
    ensures Hub.IsHubRun(h, a + b) && Hub.HubRun(h, a + b) == Hub.HubRun(Hub.HubRun(h, a), b)
    decreases |a|
  {
    if a == [] {
      assert a + b == b;
    } else {
      assert (a + b)[1..] == a[1..] + b;
      HubRunConcat(Hub.HubApply(h, a[0]), a[1..], b);
    }
  }

  /** A complete execution of Run is a run of the machine. */
  lemma {:induction false} ExecutionIsRun(h: Hub.Hub, arms: seq<Arm>)
    requires Executes(h, arms)
    ensures Hub.IsHubRun(h, StepsOf(h, arms))
    ensures arms != [] ==>
      var h' := Hub.HubRun(h, ArmSteps(arms[0]));
      && Hub.IsHubRun(h', StepsOf(h', arms[1..]))
      && Hub.HubRun(h, StepsOf(h, arms)) == Hub.HubRun(h', StepsOf(h', arms[1..]))
    decreases |arms|
  {
    if arms != [] {
      var h' := Hub.HubRun(h, ArmSteps(arms[0]));
      ExecutionIsRun(h', arms[1..]);
      HubRunConcat(h, ArmSteps(arms[0]), StepsOf(h', arms[1..]));
    }
  }

  lemma ArmThen(h: Hub.Hub, arm: Arm, h': Hub.Hub, rest: seq<Arm>)
    requires h.loop == Hub.Looping && Hub.IsHubRun(h, ArmSteps(arm)) && Hub.HubRun(h, ArmSteps(arm)) == h'
    requires Executes(h', rest)
    ensures Executes(h, [arm] + rest)
  {
    assert ([arm] + rest)[1..] == rest;
  }

  lemma OneStepRun(h: Hub.Hub, step: Hub.HubStep)
    requires Hub.HubEnabled(h, step)
    ensures Hub.IsHubRun(h, [step]) && Hub.HubRun(h, [step]) == Hub.HubApply(h, step)
  {
  }

  lemma TwoStepRun(h: Hub.Hub, a: Hub.HubStep, b: Hub.HubStep)
    requires Hub.HubEnabled(h, a) && Hub.HubEnabled(Hub.HubApply(h, a), b)
    ensures Hub.IsHubRun(h, [a, b]) && Hub.HubRun(h, [a, b]) == Hub.HubApply(Hub.HubApply(h, a), b)
  {
    OneStepRun(Hub.HubApply(h, a), b);
    assert [a, b][1..] == [b];
  }

  /** There are such executions: a viewer comes, gets a frame, and leaves. */
  lemma VisitExecutes(h: Hub.Hub, c: Client, frame: Frame)
    requires Hub.HubInv(h) && h.inbox == [] && h.stop == Hub.NotStarted && h.loop == Hub.Looping && h.clients == {}
    requires c.id in h.chans && c.id !in h.registered
    ensures Executes(h, [Register(c)] + ([Broadcast(frame)] + ([Unregister(c)] + [])))
  {
    var h1 := Hub.HubApply(h, Hub.TakeRegister(c.id));
    OneStepRun(h, Hub.TakeRegister(c.id));
    StayExecutes(h1, c, frame);
    ArmThen(h, Register(c), h1, [Broadcast(frame)] + ([Unregister(c)] + []));
  }

  lemma StayExecutes(h: Hub.Hub, c: Client, frame: Frame)
    requires h.inbox == [] && h.stop == Hub.NotStarted && h.loop == Hub.Looping && h.clients == {c.id}
    requires c.id in h.chans && c.id in h.registered
    ensures Executes(h, [Broadcast(frame)] + ([Unregister(c)] + []))
  {
    var h' := Hub.HubApply(Hub.HubApply(h, Hub.Enqueue(frame)), Hub.TakeBroadcast);
    TwoStepRun(h, Hub.Enqueue(frame), Hub.TakeBroadcast);
    LeaveExecutes(h', c);
    ArmThen(h, Broadcast(frame), h', [Unregister(c)] + []);
  }

  lemma LeaveExecutes(h: Hub.Hub, c: Client)
    requires h.stop == Hub.NotStarted && h.loop == Hub.Looping && h.clients <= {c.id}
    requires c.id in h.chans && c.id in h.registered
    ensures Executes(h, [Unregister(c)] + [])
  {
    var h' := Hub.HubApply(h, Hub.TakeUnregister(c.id));
    OneStepRun(h, Hub.TakeUnregister(c.id));
    assert h'.clients == {};
    LastStepsRun(h');
    ArmThen(h, Unregister(c), h', []);
  }

  lemma LastStepsRun(h: Hub.Hub)
    requires h.loop == Hub.Leaving && h.stop == Hub.NotStarted && h.clients <= h.chans.Keys
    ensures Hub.IsHubRun(h, LastSteps(h))
  {
    var h1 := Hub.HubApply(h, Hub.StopBegin(false));
    TwoStepRun(h1, Hub.StopEnd, Hub.Drain);
    assert LastSteps(h)[1..] == [Hub.StopEnd, Hub.Drain];
  }

  function ClientsAfter(h: Hub.Hub, arm: Arm): set<nat> {
    match arm
    case Register(c) => h.clients + {c.id}
    case Unregister(c) => h.clients - {c.id}
    case Broadcast(_) => set c | c in h.clients && c in h.chans && Hub.HasRoom(h.chans[c])
    case Done => h.clients
  }

  function ChansAfter(h: Hub.Hub, arm: Arm): map<nat, Hub.Chan> {
    if arm.Unregister? && arm.client.id in h.clients && arm.client.id in h.chans then
      h.chans[arm.client.id := Hub.Close(h.chans[arm.client.id])]
    else if arm.Broadcast? then
      map c | c in h.chans :: if c in h.clients then Hub.Offer(h.chans[c], arm.frame) else h.chans[c]
    else h.chans
  }

  /** An arm as one change of the machine's state. */
  lemma ArmEffect(h: Hub.Hub, arm: Arm)
    requires Hub.IsHubRun(h, ArmSteps(arm)) && h.loop == Hub.Looping && h.inbox == [] && h.stop == Hub.NotStarted
    ensures var h' := Hub.HubRun(h, ArmSteps(arm));
      && h'.inbox == []
      && (h'.stop == if arm.Done? then Hub.Finished else Hub.NotStarted)
      && (h'.loop == if arm.Done? || (arm.Unregister? && h'.clients == {}) then Hub.Leaving else Hub.Looping)
      && h'.clients == ClientsAfter(h, arm) && h'.chans == ChansAfter(h, arm)
  {
    var steps := ArmSteps(arm);
    var h1 := Hub.HubApply(h, steps[0]);
    match arm {
      case Broadcast(f) =>
        assert steps[1..] == [Hub.TakeBroadcast];
        OneStep(h1, Hub.TakeBroadcast);
      case Done =>
        assert steps[1..] == [Hub.StopEnd, Hub.TakeDone] && steps[1..][1..] == [Hub.TakeDone];
        OneStep(Hub.HubApply(h1, Hub.StopEnd), Hub.TakeDone);
      case _ => OneStep(h, steps[0]);
    }
  }

  lemma OneStep(h: Hub.Hub, step: Hub.HubStep)
    requires Hub.IsHubRun(h, [step])
    ensures Hub.HubEnabled(h, step) && Hub.HubRun(h, [step]) == Hub.HubApply(h, step)
  {
  }

  /** The deferred function as one change of the machine's state. */
  lemma LastEffect(h: Hub.Hub)
    requires h.loop == Hub.Leaving && Hub.IsHubRun(h, LastSteps(h))
    ensures Hub.HubRun(h, LastSteps(h)).chans
      == map c | c in h.chans :: if c in h.clients then Hub.Close(h.chans[c]) else h.chans[c]
    ensures Hub.HubRun(h, LastSteps(h)).loop == Hub.Returned
  {
    var steps := LastSteps(h);
    if h.stop == Hub.NotStarted {
      var h1 := Hub.HubApply(h, steps[0]);
      assert steps[1..] == [Hub.StopEnd, Hub.Drain] && steps[1..][1..] == [Hub.Drain];
      var h2 := Hub.HubApply(h1, Hub.StopEnd);
      assert Hub.HubRun(h1, steps[1..]) == Hub.HubRun(h2, [Hub.Drain]);
    }
  }

  /** The machine, in state `h` with the rest of an execution before it, ends in `end`. */
  ghost predicate OnTrack(h: Hub.Hub, rest: seq<Arm>, end: Hub.Hub) {
    && Hub.HubInv(h) && h.inbox == [] && h.stop != Hub.Removing && (h.loop == Hub.Looping ==> h.stop == Hub.NotStarted)
    && Executes(h, rest)
    && Hub.IsHubRun(h, StepsOf(h, rest)) && Hub.HubRun(h, StepsOf(h, rest)) == end
  }

  lemma ArmOnTrack(h: Hub.Hub, rest: seq<Arm>, end: Hub.Hub) returns (h': Hub.Hub)
    requires OnTrack(h, rest, end) && h.loop != Hub.Leaving
    ensures rest != [] && OnTrack(h', rest[1..], end)
    ensures h'.clients == ClientsAfter(h, rest[0]) && h'.chans == ChansAfter(h, rest[0])
    ensures h'.loop == Hub.Leaving <==> rest[0].Done? || (rest[0].Unregister? && h'.clients == {})
    ensures rest[0].Register? && rest[0].client.id in h.chans ==>
      h.chans[rest[0].client.id].open && h.chans[rest[0].client.id].closes == 0
  {
    var arm := rest[0];
    h' := Hub.HubRun(h, ArmSteps(arm));
    ExecutionIsRun(h, rest);
    ArmEffect(h, arm);
    Hub.HubInvRun(h, ArmSteps(arm));
    if arm.Register? {
      assert arm.client.id in h.chans ==> Hub.ChannelOk(h, arm.client.id);
    }
  }

  lemma LeavesLast(h: Hub.Hub, rest: seq<Arm>, end: Hub.Hub)
    requires OnTrack(h, rest, end) && h.loop == Hub.Leaving
    ensures rest == []
  {
  }

  lemma EndOfTrack(h: Hub.Hub, end: Hub.Hub)
    requires OnTrack(h, [], end)
    ensures end.chans == map c | c in h.chans :: if c in h.clients then Hub.Close(h.chans[c]) else h.chans[c]
    ensures end.loop == Hub.Returned
  {
    LastEffect(h);
  }

  lemma {:induction false} RegistrationsStay(h: Hub.Hub, steps: seq<Hub.HubStep>)
    requires Hub.IsHubRun(h, steps)
    ensures h.registered <= Hub.HubRun(h, steps).registered
    decreases |steps|
  {
    if steps != [] {
      RegistrationsStay(Hub.HubApply(h, steps[0]), steps[1..]);
    }
  }

  lemma {:induction false} ExecutionRegisters(h: Hub.Hub, arms: seq<Arm>)
    requires Executes(h, arms)
    ensures Hub.IsHubRun(h, StepsOf(h, arms)) && Hub.HubRun(h, StepsOf(h, arms)).loop == Hub.Returned
    ensures forall a :: a in arms && a.Register? ==> a.client.id in Hub.HubRun(h, StepsOf(h, arms)).registered
    decreases |arms|
  {
    ExecutionIsRun(h, arms);
    if arms == [] {
      LastEffect(h);
    } else {
      var h' := Hub.HubRun(h, ArmSteps(arms[0]));
      ExecutionRegisters(h', arms[1..]);
      RegistrationsStay(h', StepsOf(h', arms[1..]));
      if arms[0].Register? {
        OneStep(h, Hub.TakeRegister(arms[0].client.id));
      }
      assert forall a :: a in arms <==> a == arms[0] || a in arms[1..];
    }
  }

  /** Every execution of Run closes each client that registered exactly once, whoever left before,
      was cut off, or was still held at the end. */
  lemma ExecutionClosesOnce(h: Hub.Hub, arms: seq<Arm>)
    requires Hub.HubInv(h) && Executes(h, arms)
    ensures Hub.IsHubRun(h, StepsOf(h, arms))
    ensures var end := Hub.HubRun(h, StepsOf(h, arms));
      forall a :: a in arms && a.Register? ==>
        a.client.id in end.chans && !end.chans[a.client.id].open && end.chans[a.client.id].closes == 1
  {
    ExecutionRegisters(h, arms);
    Hub.HubInvRun(h, StepsOf(h, arms));
    var end := Hub.HubRun(h, StepsOf(h, arms));
    forall a | a in arms && a.Register?
      ensures a.client.id in end.chans && !end.chans[a.client.id].open && end.chans[a.client.id].closes == 1
    {
      assert Hub.ChannelOk(end, a.client.id);
    }
  }

  function IdsOf(clients: set<Client>): set<nat> {
    set c | c in clients :: c.id
  }

  /** The objects agree with a state of the machine on who is held and on every channel. */
  ghost predicate Agrees(clients: set<Client>, all: set<Client>, h: Hub.Hub)
    reads all
  {
    && clients <= all
    && (forall c, d :: c in all && d in all && c.id == d.id ==> c == d)
    && (forall c :: c in all ==> c.id in h.chans && c.send == h.chans[c.id] && (c in clients <==> c.id in h.clients))
    && h.clients == IdsOf(clients)
  }

  class PollHub {
    const pollID: string
    var clients: set<Client>
    var done: bool

    constructor (pollID: string)
      ensures this.pollID == pollID && clients == {} && !done
    {
      this.pollID := pollID;
      clients, done := {}, false;
    }

    /** Every client the hub holds has a channel that was never closed. */
    ghost predicate Valid()
      reads this, clients
    {
      forall c :: c in clients ==> c.send.open && c.send.closes == 0
    }

    method OnRegister(client: Client)
      requires Valid() && client.send.open && client.send.closes == 0
      modifies this`clients
      ensures Valid() && clients == old(clients) + {client}
    {
      clients := clients + {client};
    }

    /** Closes the channel of a held client; reports whether the hub is now empty and must end. */
    method OnUnregister(client: Client) returns (last: bool)
      requires Valid()
      modifies this`clients, client
      ensures Valid() && clients == old(clients) - {client}
      ensures client.send == if client in old(clients) then Hub.Close(old(client.send)) else old(client.send)
      ensures last <==> clients == {}
    {
      if client in clients {
        clients := clients - {client};
        client.send := Hub.Close(client.send);
      }
      last := clients == {};
    }

    /** Offers the frame to every held client, in whatever order: a client with room gets it and
        stays, a full one is closed and dropped. */
    method OnBroadcast(frame: Frame)
      requires Valid()
      modifies this`clients, clients
      ensures Valid()
      ensures clients == set c | c in old(clients) && Hub.HasRoom(old(c.send))
      ensures forall c :: c in old(clients) ==> c.send == Hub.Offer(old(c.send), frame)
    {
      ghost var held := clients;
      var rest := clients;
      while rest != {}
        invariant rest <= clients <= held
        invariant forall c :: c in rest ==> c.send == old(c.send)
        invariant forall c :: c in held && c !in rest ==> c.send == Hub.Offer(old(c.send), frame)
        invariant forall c :: c in held && c !in rest ==> (c in clients <==> Hub.HasRoom(old(c.send)))
        decreases rest
      {
        var client :| client in rest;
        rest := rest - {client};
        if Hub.HasRoom(client.send) {
          client.send := Hub.Put(client.send, Hub.FromHub(frame));
        } else {
          clients := clients - {client};
          client.send := Hub.Close(client.send);
        }
      }
    }

    /** The deferred function of Run, after Stop: closes whatever is still held. */
    method Drain()
      requires Valid()
      modifies this`clients, clients
      ensures Valid() && clients == {}
      ensures forall c :: c in old(clients) ==> c.send == Hub.Close(old(c.send))
    {
      ghost var held := clients;
      var rest := clients;
      while rest != {}
        invariant rest <= held && clients == held
        invariant forall c :: c in rest ==> c.send == old(c.send)
        invariant forall c :: c in held && c !in rest ==> c.send == Hub.Close(old(c.send))
        decreases rest
      {
        var client :| client in rest;
        rest := rest - {client};
        client.send := Hub.Close(client.send);
      }
      clients := {};
    }

    /** Takes one arm, from a state of the machine to the next; reports whether the loop must be left. */
    method TakeArm(arm: Arm, all: set<Client>, manager: HubManager, ghost h: Hub.Hub, ghost h': Hub.Hub)
      returns (leaving: bool)
      requires Valid() && !done && Agrees(clients, all, h) && ClientsOf([arm]) <= all && manager.Valid()
      requires arm.Register? ==> arm.client.send.open && arm.client.send.closes == 0
      requires h'.clients == ClientsAfter(h, arm) && h'.chans == ChansAfter(h, arm)
      modifies this`clients, this`done, manager, all
      ensures Valid() && Agrees(clients, all, h') && manager.Valid()
      ensures leaving <==> arm.Done? || (arm.Unregister? && h'.clients == {})
      ensures done <==> arm.Done?
      ensures manager.hubs == if done then Without(old(manager.hubs), pollID, this) else old(manager.hubs)
    {
      leaving := false;
      assert arm.Register? || arm.Unregister? ==> arm.client in ClientsOf([arm]) by { assert arm in [arm]; }
      match arm {
        case Register(client) => OnRegister(client);
        case Unregister(client) => leaving := OnUnregister(client);
        case Broadcast(frame) => OnBroadcast(frame);
        case Done =>
          Stop(manager);
          leaving := true;
      }
    }

    /** The event loop over a complete execution. It ends with `done` closed, the hub empty and out
        of the registry, and every channel as the machine has it after the same steps. */
    method Run(arms: seq<Arm>, manager: HubManager, ghost start: Hub.Hub)
      requires Valid() && clients == {} && !done && Agrees(clients, ClientsOf(arms), start)
      requires Hub.HubInv(start) && start.inbox == [] && start.stop == Hub.NotStarted && start.loop == Hub.Looping
      requires Executes(start, arms) && manager.Valid()
      modifies this`clients, this`done, manager, ClientsOf(arms)
      ensures clients == {} && done && manager.Valid()
      ensures manager.hubs == Without(old(manager.hubs), pollID, this) && this !in manager.hubs.Values
      ensures Hub.IsHubRun(start, StepsOf(start, arms))
      ensures var end := Hub.HubRun(start, StepsOf(start, arms));
        end.loop == Hub.Returned && forall c :: c in ClientsOf(arms) ==> c.id in end.chans && c.send == end.chans[c.id]
    {
      ExecutionIsRun(start, arms);
      ghost var end := Hub.HubRun(start, StepsOf(start, arms));
      ghost var h := TakeArms(arms, manager, start, end);
      Leave(manager, ClientsOf(arms), h, end);
    }

    /** The deferred function: stop, then close whatever is still held. */
    method Leave(manager: HubManager, all: set<Client>, ghost h: Hub.Hub, ghost end: Hub.Hub)
      requires Valid() && Agrees(clients, all, h) && manager.Valid() && OnTrack(h, [], end)
      modifies this`clients, this`done, manager, all
      ensures clients == {} && done && manager.Valid() && end.loop == Hub.Returned
      ensures manager.hubs == if old(done) then old(manager.hubs) else Without(old(manager.hubs), pollID, this)
      ensures forall c :: c in all ==> c.id in end.chans && c.send == end.chans[c.id]
    {
      EndOfTrack(h, end);
      Stop(manager);
      Drain();
    }

    /** The loop over the select statement. */
    method TakeArms(arms: seq<Arm>, manager: HubManager, ghost start: Hub.Hub, ghost end: Hub.Hub)
      returns (ghost h: Hub.Hub)
      requires Valid() && !done && Agrees(clients, ClientsOf(arms), start) && manager.Valid()
      requires OnTrack(start, arms, end) && start.loop == Hub.Looping
      modifies this`clients, this`done, manager, ClientsOf(arms)
      ensures OnTrack(h, [], end) && h.loop == Hub.Leaving
      ensures Valid() && Agrees(clients, ClientsOf(arms), h) && manager.Valid()
      ensures manager.hubs == if done then Without(old(manager.hubs), pollID, this) else old(manager.hubs)
    {
      var all := ClientsOf(arms);
      var i := 0;
      var leaving := false;
      h := start;
      while !leaving
        invariant 0 <= i <= |arms| && OnTrack(h, arms[i..], end)
        invariant Valid() && Agrees(clients, all, h) && manager.Valid()
        invariant leaving <==> h.loop == Hub.Leaving
        invariant done ==> leaving
        invariant manager.hubs == if done then Without(old(manager.hubs), pollID, this) else old(manager.hubs)
        decreases |arms| - i
      {
        ghost var h' := ArmOnTrack(h, arms[i..], end);
        assert ClientsOf([arms[i]]) <= all by { assert arms[i] in arms; }
        leaving := TakeArm(arms[i], all, manager, h, h');
        assert arms[i..][1..] == arms[i + 1..];
        h, i := h', i + 1;
      }
      LeavesLast(h, arms[i..], end);
    }

    /** Closes done once and leaves the registry. */
    method Stop(manager: HubManager)
      requires manager.Valid()
      modifies this`done, manager
      ensures done && manager.Valid()
      ensures manager.hubs == if old(done) then old(manager.hubs) else Without(old(manager.hubs), pollID, this)
    {
      if !done {
        done := true;
        manager.RemoveHub(pollID, this);
      }
    }
  }

  class HubManager {
    var hubs: map<string, PollHub>

    constructor ()
      ensures Valid() && hubs == map[]
    {
      hubs := map[];
    }

    /** Mapped hubs belong to their poll. */
    ghost predicate Valid()
      reads this
    {
      forall p :: p in hubs ==> hubs[p].pollID == p
    }

    /** Returns the mapped hub while it is open, and otherwise maps a new one; a failed
        subscription creates nothing. The hub returned is open and mapped. */
    method GetOrCreateHub(pollID: string, subscribeFails: bool) returns (r: Option<PollHub>)
      requires Valid()
      modifies this
      ensures Valid()
      ensures pollID in old(hubs) && !old(hubs[pollID].done) ==> r == Some(old(hubs)[pollID]) && hubs == old(hubs)
      ensures !(pollID in old(hubs) && !old(hubs[pollID].done)) && subscribeFails ==> r == None && hubs == old(hubs)
      ensures !(pollID in old(hubs) && !old(hubs[pollID].done)) && !subscribeFails ==>
        r.Some? && fresh(r.value) && hubs == old(hubs)[pollID := r.value]
      ensures r.Some? ==> pollID in hubs && hubs[pollID] == r.value && !r.value.done
    {
      if pollID in hubs && !hubs[pollID].done {
        return Some(hubs[pollID]);
      }
      if subscribeFails {
        return None;
      }
      var hub := new PollHub(pollID);
      hubs := hubs[pollID := hub];
      return Some(hub);
    }

    /** Deletes the poll's entry only while it is this very hub. */
    method RemoveHub(pollID: string, hub: PollHub)
      requires Valid()
      modifies this
      ensures Valid()
      ensures hubs == Without(old(hubs), pollID, hub)
    {
      if pollID in hubs && hubs[pollID] == hub {
        hubs := hubs - {pollID};
      }
    }

    /** Empties the registry, then stops every hub that was in it. */
    method Shutdown()
      requires Valid()
      modifies this, hubs.Values`done
      ensures Valid() && hubs == map[]
      ensures forall h :: h in old(hubs).Values ==> h.done
    {
      var active := hubs.Values;
      hubs := map[];
      ghost var all := active;
      while active != {}
        invariant active <= all && hubs == map[]
        invariant forall h :: h in all - active ==> h.done
        decreases active
      {
        var hub :| hub in active;
        active := active - {hub};
        hub.Stop(this);
      }
    }
  }
}
