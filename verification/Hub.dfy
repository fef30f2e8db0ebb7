/**
 One poll's hub as a state machine: the arms of its select loop, the goroutines that register,
 unregister, broadcast and stop, and the pumps that drain the clients' channels.
 */
module Hub {
  import opened VoteLog

  const SEND_BUFFER_SIZE := 256
  const BROADCAST_BUFFER_SIZE := 256

  /** A frame in a client's channel, by who put it there. */
  datatype Item = FromHub(frame: Frame) | FromHandler(frame: Frame)

  /** A client's send channel: what waits in it, whether it is open, how often it was closed, and
      what its consumer has taken out. */
  datatype Chan = Chan(queue: seq<Item>, open: bool, closes: nat, taken: seq<Item>)

  const NEW_CHAN := Chan([], true, 0, [])

  function Close(ch: Chan): Chan {
    ch.(open := false, closes := ch.closes + 1)
  }

  predicate HasRoom(ch: Chan) {
    |ch.queue| < SEND_BUFFER_SIZE
  }

  function Put(ch: Chan, item: Item): Chan {
    ch.(queue := ch.queue + [item])
  }

  /** The broadcast arm's non-blocking send: a full channel is closed instead. */
  function Offer(ch: Chan, frame: Frame): Chan {
    if HasRoom(ch) then Put(ch, FromHub(frame)) else Close(ch)
  }

  /** How far the body of stopOnce has come: `done` is closed from `Removing` on. */
  datatype Stopping = NotStarted | Removing | Finished

  datatype Loop = Looping | Leaving | Returned

  /** `faults` counts the hub's sends on, and closes of, channels that were already closed. */
  datatype Hub = Hub(
    clients: set<nat>, chans: map<nat, Chan>, registered: set<nat>, joined: map<nat, nat>,
    inbox: seq<Frame>, bcast: seq<Frame>, stop: Stopping, loop: Loop, external: bool, faults: nat)

  const NEW_HUB := Hub({}, map[], {}, map[], [], [], NotStarted, Looping, false, 0)

  datatype HubStep =
    | NewClient(c: nat)
    | TakeRegister(c: nat)           // the register arm
    | RegisterClosed(c: nat)         // Register finds done closed
    | TakeUnregister(c: nat)         // the unregister arm
    | Enqueue(frame: Frame)          // Broadcast
    | TakeBroadcast                  // the broadcast arm
    | TakeDone                       // the done arm
    | StopBegin(external: bool)      // Stop closes done, called by Run's deferred function or from outside
    | StopEnd                        // Stop has removed the hub from the manager
    | Drain                          // the rest of Run's deferred function
    | Consume(c: nat)                // writePump takes a frame
    | HandlerSend(c: nat, frame: Frame)

  predicate HubEnabled(h: Hub, step: HubStep) {
    match step
    case NewClient(c) => c !in h.chans
    case TakeRegister(c) => h.loop == Looping && c in h.chans && c !in h.registered
    case RegisterClosed(c) => h.stop != NotStarted && c in h.chans && c !in h.registered
    case TakeUnregister(c) => h.loop == Looping && c in h.registered && c in h.chans
    case Enqueue(_) => |h.inbox| < BROADCAST_BUFFER_SIZE
    case TakeBroadcast => h.loop == Looping && h.inbox != [] && h.clients <= h.chans.Keys
    case TakeDone => h.loop == Looping && h.stop != NotStarted
    case StopBegin(external) => h.stop == NotStarted && (external || h.loop == Leaving)
    case StopEnd => h.stop == Removing
    case Drain => h.loop == Leaving && h.stop == Finished && h.clients <= h.chans.Keys
    case Consume(c) => c in h.chans && h.chans[c].queue != []
    case HandlerSend(c, _) => c in h.registered && c in h.chans && h.chans[c].open && HasRoom(h.chans[c])
  }

  function Fault(bad: bool): nat {
    if bad then 1 else 0
  }

  ghost function HubApply(h: Hub, step: HubStep): Hub
    requires HubEnabled(h, step)
  {
    match step
    case NewClient(c) => h.(chans := h.chans[c := NEW_CHAN])
    case TakeRegister(c) =>
      h.(clients := h.clients + {c}, registered := h.registered + {c}, joined := h.joined[c := |h.bcast|])
    case RegisterClosed(c) =>
      h.(registered := h.registered + {c}, chans := h.chans[c := Close(h.chans[c])],
         faults := h.faults + Fault(!h.chans[c].open))
    case TakeUnregister(c) =>
      var h' := if c in h.clients
        then h.(clients := h.clients - {c}, chans := h.chans[c := Close(h.chans[c])],
                faults := h.faults + Fault(!h.chans[c].open))
        else h;
      if h'.clients == {} then h'.(loop := Leaving) else h'
    case Enqueue(frame) => h.(inbox := h.inbox + [frame])
    case TakeBroadcast =>
      var m := h.inbox[0];
      h.(inbox := h.inbox[1..], bcast := h.bcast + [m],
         chans := (map c | c in h.chans :: if c in h.clients then Offer(h.chans[c], m) else h.chans[c]),
         clients := (set c | c in h.clients && HasRoom(h.chans[c])),
         faults := h.faults + Fault(exists c :: c in h.clients && !h.chans[c].open))
    case TakeDone => h.(loop := Leaving)
    case StopBegin(external) => h.(stop := Removing, external := h.external || external)
    case StopEnd => h.(stop := Finished)
    case Drain =>
      h.(loop := Returned, clients := {},
         chans := (map c | c in h.chans :: if c in h.clients then Close(h.chans[c]) else h.chans[c]),
         faults := h.faults + Fault(exists c :: c in h.clients && !h.chans[c].open))
    case Consume(c) =>
      var ch := h.chans[c];
      h.(chans := h.chans[c := ch.(queue := ch.queue[1..], taken := ch.taken + [ch.queue[0]])])
    case HandlerSend(c, frame) => h.(chans := h.chans[c := Put(h.chans[c], FromHandler(frame))])
  }

  ghost predicate IsHubRun(h: Hub, steps: seq<HubStep>)
    decreases |steps|
  {
    steps != [] ==> HubEnabled(h, steps[0]) && IsHubRun(HubApply(h, steps[0]), steps[1..])
  }

  ghost function HubRun(h: Hub, steps: seq<HubStep>): Hub
    requires IsHubRun(h, steps)
    decreases |steps|
  {
    if steps == [] then h else HubRun(HubApply(h, steps[0]), steps[1..])
  }

  // ----- what a client got from the hub -----

  function HubFrames(items: seq<Item>): seq<Frame> {
    if items == [] then []
    else
      var last := items[|items| - 1];
      HubFrames(items[..|items| - 1]) + (if last.FromHub? then [last.frame] else [])
  }

  /** Every frame the hub ever put into the channel, in order, taken out or still waiting. */
  function Stream(ch: Chan): seq<Frame> {
    HubFrames(ch.taken + ch.queue)
  }

  lemma StreamPut(ch: Chan, item: Item)
    ensures Stream(Put(ch, item)) == Stream(ch) + (if item.FromHub? then [item.frame] else [])
  {
    var items := ch.taken + ch.queue;
    assert ch.taken + (ch.queue + [item]) == items + [item];
    assert (items + [item])[..|items|] == items;
  }

  lemma StreamTake(ch: Chan)
    requires ch.queue != []
    ensures Stream(ch.(queue := ch.queue[1..], taken := ch.taken + [ch.queue[0]])) == Stream(ch)
  {
    assert (ch.taken + [ch.queue[0]]) + ch.queue[1..] == ch.taken + ch.queue;
  }

  /** The stream is a contiguous block of the broadcast sequence from the client's registration on;
      a client still held has everything up to now. */
  predicate GapFree(h: Hub, c: nat)
    requires c in h.chans
  {
    var s := Stream(h.chans[c]);
    if c in h.joined then
      && h.joined[c] + |s| <= |h.bcast|
      && s == h.bcast[h.joined[c]..h.joined[c] + |s|]
      && (c in h.clients ==> h.joined[c] + |s| == |h.bcast|)
    else
      s == [] && c !in h.clients
  }

  /** A held client's channel is open and has never been closed; one that was registered and is no
      longer held has been closed once; one not yet registered is untouched. */
  predicate ChannelOk(h: Hub, c: nat)
    requires c in h.chans
  {
    var ch := h.chans[c];
    && |ch.queue| <= SEND_BUFFER_SIZE
    && (c in h.clients ==> c in h.registered)
    && (if c in h.registered && c !in h.clients then !ch.open && ch.closes == 1 else ch.open && ch.closes == 0)
  }

  ghost predicate HubInv(h: Hub) {
    && Shape(h)
    && (forall c :: c in h.chans ==> ChannelOk(h, c) && GapFree(h, c))
  }

  /** The part of the invariant that does not look into the channels. */
  predicate Shape(h: Hub) {
    && h.clients <= h.chans.Keys
    && h.joined.Keys <= h.registered <= h.chans.Keys
    && h.faults == 0
    && |h.inbox| <= BROADCAST_BUFFER_SIZE
    && (h.loop == Returned ==> h.clients == {} && h.stop == Finished)
    && (h.loop == Leaving ==> h.stop != NotStarted || h.clients == {})
    && (h.stop != NotStarted && !h.external ==> h.loop != Looping && h.clients == {})
  }

  lemma NewHubHolds()
    ensures HubInv(NEW_HUB)
  {
  }

  /** The steps that are about one client. */
  predicate Names(step: HubStep) {
    step.NewClient? || step.TakeRegister? || step.RegisterClosed? || step.TakeUnregister?
    || step.Consume? || step.HandlerSend?
  }

  /** A step that names a client changes no other client's channel and membership. */
  lemma OtherChannels(h: Hub, step: HubStep, c: nat)
    requires HubEnabled(h, step) && !step.TakeBroadcast? && !step.Drain? && c in h.chans
    requires Names(step) ==> step.c != c
    ensures var h' := HubApply(h, step);
      && c in h'.chans && h'.chans[c] == h.chans[c]
      && (c in h'.clients <==> c in h.clients) && (c in h'.registered <==> c in h.registered)
  {
  }

  lemma SubjectChannel(h: Hub, step: HubStep, c: nat)
    requires h.clients <= h.chans.Keys && h.registered <= h.chans.Keys && HubEnabled(h, step)
    requires Names(step)
    requires c == step.c && (c in h.chans ==> ChannelOk(h, c))
    ensures c in HubApply(h, step).chans && ChannelOk(HubApply(h, step), c)
  {
  }

  lemma EveryChannel(h: Hub, step: HubStep, c: nat)
    requires HubEnabled(h, step) && (step.TakeBroadcast? || step.Drain?) && c in h.chans && ChannelOk(h, c)
    ensures c in HubApply(h, step).chans && ChannelOk(HubApply(h, step), c)
  {
  }

  lemma ChannelStep(h: Hub, step: HubStep, c: nat)
    requires h.clients <= h.chans.Keys && h.registered <= h.chans.Keys && HubEnabled(h, step)
    requires c in HubApply(h, step).chans && (c in h.chans ==> ChannelOk(h, c))
    ensures ChannelOk(HubApply(h, step), c)
  {
    if step.TakeBroadcast? || step.Drain? {
      EveryChannel(h, step, c);
    } else if c in h.chans && !(Names(step) && step.c == c) {
      OtherChannels(h, step, c);
    } else {
      SubjectChannel(h, step, c);
    }
  }

  lemma ShapeStep(h: Hub, step: HubStep)
    requires Shape(h) && HubEnabled(h, step)
    requires forall c :: c in h.chans && (c in h.clients || c !in h.registered) ==> h.chans[c].open
    ensures Shape(HubApply(h, step))
  {
  }

  lemma StreamStep(h: Hub, step: HubStep, c: nat)
    requires HubEnabled(h, step) && c in h.chans
    ensures c in HubApply(h, step).chans
    ensures Stream(HubApply(h, step).chans[c]) == Stream(h.chans[c])
      + (if step == TakeBroadcast && c in h.clients && HasRoom(h.chans[c]) then [h.inbox[0]] else [])
  {
    var ch := h.chans[c];
    match step {
      case Consume(d) => if d == c { StreamTake(ch); }
      case HandlerSend(d, frame) => if d == c { StreamPut(ch, FromHandler(frame)); }
      case TakeBroadcast => if c in h.clients && HasRoom(ch) { StreamPut(ch, FromHub(h.inbox[0])); }
      case _ =>
    }
  }

  /** How a step moves a client's registration and the broadcast sequence. */
  lemma MembershipStep(h: Hub, step: HubStep, c: nat)
    requires HubEnabled(h, step) && c in h.chans
    ensures var h' := HubApply(h, step);
      && h'.bcast == h.bcast + (if step == TakeBroadcast then [h.inbox[0]] else [])
      && (if step == TakeRegister(c) then
            c !in h.registered && c in h'.joined && h'.joined[c] == |h.bcast|
          else
            && (c in h'.joined <==> c in h.joined) && (c in h.joined ==> h'.joined[c] == h.joined[c])
            && (c in h'.clients ==> c in h.clients)
            && (c in h'.clients && step == TakeBroadcast ==> HasRoom(h.chans[c])))
  {
  }

  lemma GapStep(h: Hub, step: HubStep, c: nat)
    requires h.joined.Keys <= h.registered && HubEnabled(h, step) && c in h.chans && GapFree(h, c)
    ensures c in HubApply(h, step).chans && GapFree(HubApply(h, step), c)
  {
    StreamStep(h, step, c);
    MembershipStep(h, step, c);
    BlockGrows(h, HubApply(h, step), step, c);
  }

  lemma BlockGrows(h: Hub, h': Hub, step: HubStep, c: nat)
    requires c in h.chans && c in h'.chans && GapFree(h, c) && h.joined.Keys <= h.registered
    requires step == TakeBroadcast ==> h.inbox != []
    requires Stream(h'.chans[c]) == Stream(h.chans[c])
      + (if step == TakeBroadcast && c in h.clients && HasRoom(h.chans[c]) then [h.inbox[0]] else [])
    requires h'.bcast == h.bcast + (if step == TakeBroadcast then [h.inbox[0]] else [])
    requires if step == TakeRegister(c) then
        c !in h.registered && c in h'.joined && h'.joined[c] == |h.bcast|
      else
        && (c in h'.joined <==> c in h.joined) && (c in h.joined ==> h'.joined[c] == h.joined[c])
        && (c in h'.clients ==> c in h.clients)
        && (c in h'.clients && step == TakeBroadcast ==> HasRoom(h.chans[c]))
    ensures GapFree(h', c)
  {
  }

  lemma HubInvStep(h: Hub, step: HubStep)
    requires HubInv(h) && HubEnabled(h, step)
    ensures HubInv(HubApply(h, step))
  {
    var h' := HubApply(h, step);
    forall c | c in h'.chans ensures ChannelOk(h', c) && GapFree(h', c) {
      ChannelStep(h, step, c);
      if c in h.chans {
        GapStep(h, step, c);
      } else {
        NewcomerStep(h, step, c);
      }
    }
    forall c | c in h.chans && (c in h.clients || c !in h.registered) ensures h.chans[c].open {
      assert ChannelOk(h, c);
    }
    ShapeStep(h, step);
  }

  lemma NewcomerStep(h: Hub, step: HubStep, c: nat)
    requires Shape(h) && HubEnabled(h, step) && c !in h.chans && c in HubApply(h, step).chans
    ensures GapFree(HubApply(h, step), c)
  {
  }

  lemma {:induction false} HubInvRun(h: Hub, steps: seq<HubStep>)
    requires HubInv(h) && IsHubRun(h, steps)
    ensures HubInv(HubRun(h, steps))
    decreases |steps|
  {
    if steps != [] {
      HubInvStep(h, steps[0]);
      HubInvRun(HubApply(h, steps[0]), steps[1..]);
    }
  }

  // ----- the theorems -----

  /** Gap-free delivery: in every run, what the hub put into a client's channel is a contiguous
      block of the broadcast sequence that starts at its registration, complete while it is held. */
  lemma DeliveryIsGapFree(steps: seq<HubStep>, c: nat)
    requires IsHubRun(NEW_HUB, steps) && c in HubRun(NEW_HUB, steps).joined
    ensures var h := HubRun(NEW_HUB, steps);
      c in h.chans &&
      var s := Stream(h.chans[c]);
      && h.joined[c] + |s| <= |h.bcast|
      && s == h.bcast[h.joined[c]..h.joined[c] + |s|]
      && (c in h.clients ==> h.joined[c] + |s| == |h.bcast|)
  {
    NewHubHolds();
    HubInvRun(NEW_HUB, steps);
    assert GapFree(HubRun(NEW_HUB, steps), c);
  }

  /** Channel discipline: in every run the clients the hub holds have open channels within their
      bound, the hub never sends on or closes a closed channel, and once Run has returned every
      client ever registered has been closed exactly once. */
  lemma ChannelDiscipline(steps: seq<HubStep>)
    requires IsHubRun(NEW_HUB, steps)
    ensures var h := HubRun(NEW_HUB, steps);
      && h.faults == 0
      && |h.inbox| <= 256
      && (forall c :: c in h.clients ==> c in h.chans && h.chans[c].open && |h.chans[c].queue| <= 256)
      && (forall c :: c in h.chans ==> h.chans[c].closes <= 1)
      && (h.loop == Returned ==> h.clients == {} && forall c :: c in h.registered ==>
            c in h.chans && !h.chans[c].open && h.chans[c].closes == 1)
  {
    NewHubHolds();
    HubInvRun(NEW_HUB, steps);
    var h := HubRun(NEW_HUB, steps);
    assert forall c :: c in h.chans ==> ChannelOk(h, c);
  }

  /** A hub that nobody stopped from outside closes `done` only when it holds no client. */
  lemma HubNeverEndsUnderAViewer(steps: seq<HubStep>)
    requires IsHubRun(NEW_HUB, steps)
    ensures var h := HubRun(NEW_HUB, steps); h.stop != NotStarted && !h.external ==> h.clients == {}
  {
    NewHubHolds();
    HubInvRun(NEW_HUB, steps);
  }

  /** A broadcast cuts off exactly the clients whose channel is full; everyone else in the hub gets
      the frame, and nothing it does to one client depends on another. */
  lemma BroadcastIsPerClient(h: Hub, c: nat)
    requires HubInv(h) && HubEnabled(h, TakeBroadcast) && c in h.chans
    ensures var h' := HubApply(h, TakeBroadcast);
      && (c in h'.clients <==> c in h.clients && |h.chans[c].queue| < 256)
      && (c in h'.clients ==> h'.chans[c].open && Stream(h'.chans[c]) == Stream(h.chans[c]) + [h.inbox[0]])
      && (c !in h'.clients ==> Stream(h'.chans[c]) == Stream(h.chans[c]))
      && (c !in h.clients ==> h'.chans[c] == h.chans[c])
  {
    assert ChannelOk(h, c);
    if c in h.clients && HasRoom(h.chans[c]) {
      StreamPut(h.chans[c], FromHub(h.inbox[0]));
    }
  }

  // ----- order -----

  /** The frames handed to Broadcast. */
  function Enqueued(steps: seq<HubStep>): seq<Frame> {
    if steps == [] then []
    else (if steps[0].Enqueue? then [steps[0].frame] else []) + Enqueued(steps[1..])
  }

  /** Broadcasts are first in, first out, and none is lost on the way to the loop: in every run those
      broadcast and those still waiting are the ones enqueued, in that order. */
  lemma {:induction false} BroadcastsAreInOrder(h: Hub, steps: seq<HubStep>)
    requires IsHubRun(h, steps)
    ensures HubRun(h, steps).bcast + HubRun(h, steps).inbox == h.bcast + h.inbox + Enqueued(steps)
    decreases |steps|
  {
    if steps != [] {
      BroadcastStep(h, steps[0]);
      BroadcastsAreInOrder(HubApply(h, steps[0]), steps[1..]);
    }
  }

  lemma BroadcastStep(h: Hub, step: HubStep)
    requires HubEnabled(h, step)
    ensures var h' := HubApply(h, step);
      h'.bcast + h'.inbox == h.bcast + h.inbox + if step.Enqueue? then [step.frame] else []
  {
    assert step == TakeBroadcast ==> h.inbox == [h.inbox[0]] + h.inbox[1..];
  }

  /** Everything ever put into the channel, in order, taken out or still waiting. */
  function Items(ch: Chan): seq<Item> {
    ch.taken + ch.queue
  }

  /** What a step puts into the channel of a client. */
  function PutBy(h: Hub, step: HubStep, c: nat): seq<Item>
    requires HubEnabled(h, step) && c in h.chans
  {
    if step.HandlerSend? && step.c == c then [FromHandler(step.frame)]
    else if step.TakeBroadcast? && c in h.clients && |h.chans[c].queue| < 256 then [FromHub(h.inbox[0])]
    else []
  }

  lemma QueueStep(h: Hub, step: HubStep, c: nat)
    requires HubEnabled(h, step) && c in h.chans
    ensures c in HubApply(h, step).chans
    ensures var ch, ch' := h.chans[c], HubApply(h, step).chans[c];
      if step == Consume(c) then
        ch'.taken == ch.taken + [ch.queue[0]] && ch'.queue == ch.queue[1..]
      else
        ch'.taken == ch.taken && ch'.queue == ch.queue + PutBy(h, step, c)
  {
  }

  lemma ItemsStep(h: Hub, step: HubStep, c: nat)
    requires HubEnabled(h, step) && c in h.chans
    ensures c in HubApply(h, step).chans
    ensures Items(HubApply(h, step).chans[c]) == Items(h.chans[c]) + PutBy(h, step, c)
    ensures h.chans[c].taken <= HubApply(h, step).chans[c].taken
  {
    QueueStep(h, step, c);
    var ch := h.chans[c];
    if step == Consume(c) {
      assert Items(ch) == (ch.taken + [ch.queue[0]]) + ch.queue[1..];
    }
  }

  /** Channels are first in, first out: in every run what was put in stays in, in its place, and what
      the consumer has taken is a prefix of it. */
  lemma {:induction false} ChannelsAreInOrder(h: Hub, steps: seq<HubStep>, c: nat)
    requires IsHubRun(h, steps) && c in h.chans
    ensures c in HubRun(h, steps).chans
    ensures h.chans[c].taken <= HubRun(h, steps).chans[c].taken <= Items(HubRun(h, steps).chans[c])
    ensures Items(h.chans[c]) <= Items(HubRun(h, steps).chans[c])
    decreases |steps|
  {
    if steps != [] {
      ItemsStep(h, steps[0], c);
      ChannelsAreInOrder(HubApply(h, steps[0]), steps[1..], c);
    }
  }

  // ----- membership and the end of the loop -----

  /** Who is held after a step: whoever just registered, and whoever was held and neither
      unregistered, nor was full at a broadcast, nor saw the hub drained. */
  lemma HeldAfter(h: Hub, step: HubStep, c: nat)
    requires HubEnabled(h, step) && c in h.chans
    ensures c in HubApply(h, step).clients <==>
      || step == TakeRegister(c)
      || (c in h.clients && step != TakeUnregister(c) && step != Drain
          && !(step == TakeBroadcast && |h.chans[c].queue| >= 256))
  {
  }

  /** The loop is left exactly by the done arm and by an unregister arm after which nobody is held. */
  lemma LoopLeavesIff(h: Hub, step: HubStep)
    requires HubEnabled(h, step) && h.loop == Looping
    ensures HubApply(h, step).loop == Leaving
       <==> step == TakeDone || (step.TakeUnregister? && forall c :: c in h.clients ==> c == step.c)
  {
    if step.TakeUnregister? && forall c :: c in h.clients ==> c == step.c {
      assert h.clients - {step.c} == {};
    } else if step.TakeUnregister? {
      var c :| c in h.clients && c != step.c;
      assert c in h.clients - {step.c};
    }
  }

  /** The loop is never stuck: every client that waits to register or to unregister, every waiting
      frame, and the end of the hub finds its arm ready; a broadcast finds room below 256 frames. */
  lemma ArmsAreReady(h: Hub, c: nat, frame: Frame)
    requires HubInv(h) && h.loop == Looping
    ensures HubEnabled(h, TakeRegister(c)) <==> c in h.chans && c !in h.registered
    ensures HubEnabled(h, TakeUnregister(c)) <==> c in h.registered
    ensures HubEnabled(h, TakeBroadcast) <==> h.inbox != []
    ensures HubEnabled(h, TakeDone) <==> h.stop != NotStarted
    ensures HubEnabled(h, Enqueue(frame)) <==> |h.inbox| < 256
  {
  }

  /** So is everybody else: whatever the loop does, a new client can come, one that is not registered
      is turned away by a stopped hub, and a client's pumps find the frames in its channel and room
      below 256 of them. */
  lemma PumpsAreReady(h: Hub, c: nat, frame: Frame)
    requires HubInv(h)
    ensures HubEnabled(h, NewClient(c)) <==> c !in h.chans
    ensures HubEnabled(h, RegisterClosed(c)) <==> h.stop != NotStarted && c in h.chans && c !in h.registered
    ensures HubEnabled(h, Consume(c)) <==> c in h.chans && h.chans[c].queue != []
    ensures HubEnabled(h, HandlerSend(c, frame)) <==>
      c in h.registered && h.chans[c].open && |h.chans[c].queue| < 256
    ensures HubEnabled(h, StopBegin(true)) <==> h.stop == NotStarted
  {
  }

  /** And a loop that is left returns by itself: its deferred function is never stuck. */
  lemma LeavingReturns(h: Hub) returns (steps: seq<HubStep>)
    requires HubInv(h) && h.loop == Leaving
    ensures IsHubRun(h, steps) && HubRun(h, steps).loop == Returned && HubRun(h, steps).clients == {}
    ensures forall step :: step in steps ==> step in {StopBegin(false), StopEnd, Drain}
    decreases if h.stop == NotStarted then 2 else if h.stop == Removing then 1 else 0
  {
    if h.stop == Finished {
      steps := [Drain];
      assert IsHubRun(HubApply(h, Drain), []);
    } else {
      var first := if h.stop == NotStarted then StopBegin(false) else StopEnd;
      HubInvStep(h, first);
      var rest := LeavingReturns(HubApply(h, first));
      steps := [first] + rest;
      assert steps[1..] == rest;
    }
  }
}
