/** From stored votes to a viewer's screen: the vote protocol, a hub and the viewer's page together. */
module EndToEnd {
  import opened Common
  import opened VoteLog
  import opened VoteProtocol
  import opened Bounds
  import opened Hub
  import opened Viewer

  function TakenFrames(items: seq<Item>): seq<Frame> {
    seq(|items|, i requires 0 <= i < |items| => items[i].frame)
  }

  /** What enters the hub was sent by the protocol before, or announces the closing of the poll. */
  ghost predicate Relays(step: HubStep, sent: seq<Sent>) {
    (step.Enqueue? || step.HandlerSend?) && !step.frame.PollClosed? ==> exists m :: m in sent && m.frame == step.frame
  }

  ghost predicate CarriesBounded(h: Hub, votes: seq<Vote>) {
    && (forall f :: f in h.inbox ==> FrameBounded(f, votes))
    && (forall c, item :: c in h.chans && item in h.chans[c].taken + h.chans[c].queue ==>
          FrameBounded(item.frame, votes))
  }

  lemma CarriesStep(h: Hub, step: HubStep, votes: seq<Vote>)
    requires CarriesBounded(h, votes) && HubEnabled(h, step)
    requires step.Enqueue? || step.HandlerSend? ==> FrameBounded(step.frame, votes)
    ensures CarriesBounded(HubApply(h, step), votes)
  {
    var h' := HubApply(h, step);
    forall c, item | c in h'.chans && item in h'.chans[c].taken + h'.chans[c].queue
      ensures FrameBounded(item.frame, votes)
    {
      NewItems(h, step, c, item);
    }
    assert h.inbox != [] ==> h.inbox[0] in h.inbox;
  }

  /** A frame in a channel was there before, comes from the inbox, or from the handler. */
  lemma NewItems(h: Hub, step: HubStep, c: nat, item: Item)
    requires HubEnabled(h, step) && c in HubApply(h, step).chans
    requires item in HubApply(h, step).chans[c].taken + HubApply(h, step).chans[c].queue
    ensures
      || (c in h.chans && item in h.chans[c].taken + h.chans[c].queue)
      || (step.TakeBroadcast? && item.frame == h.inbox[0])
      || (step.HandlerSend? && item.frame == step.frame)
  {
  }

  lemma {:induction false} CarriesRun(h: Hub, steps: seq<HubStep>, votes: seq<Vote>)
    requires CarriesBounded(h, votes) && IsHubRun(h, steps)
    requires forall step :: step in steps && (step.Enqueue? || step.HandlerSend?) ==> FrameBounded(step.frame, votes)
    ensures CarriesBounded(HubRun(h, steps), votes)
    decreases |steps|
  {
    if steps != [] {
      assert steps[0] in steps && forall t :: t in steps[1..] ==> t in steps;
      CarriesStep(h, steps[0], votes);
      CarriesRun(HubApply(h, steps[0]), steps[1..], votes);
    }
  }

  /** No over-reporting, end to end: take any careful run of the vote protocol, with whatever
      interrupted pipelines and failing writes and reads, and a hub over frames it sent, in any order
      and number; whatever a client's pump has taken from its channel, the page shows no count above
      the votes stored for its option. */
  lemma ViewersNeverSeeMoreThanWasStored(s: State, steps: seq<Step>, hubSteps: seq<HubStep>, c: nat, view: View)
    requires Init(s) && Distinct(s.opts) && CarefulRun(s, steps) && IsRun(s, steps)
    requires IsHubRun(NEW_HUB, hubSteps) && c in HubRun(NEW_HUB, hubSteps).chans
    requires forall t :: t in hubSteps ==> Relays(t, Run(s, steps).sent)
    requires ViewBounded(view, s.poll, Run(s, steps).votes)
    ensures var shown := Fold(view, s.poll, TakenFrames(HubRun(NEW_HUB, hubSteps).chans[c].taken));
      && (forall row :: row in shown.rows ==> row.count <= Tally(Run(s, steps).votes, s.poll, row.option))
      && shown.total <= |Run(s, steps).votes|
  {
    BoundAtFirst(s);
    BoundRun(s, steps);
    var s' := Run(s, steps);
    forall t | t in hubSteps && (t.Enqueue? || t.HandlerSend?) ensures FrameBounded(t.frame, s'.votes) {
      assert Relays(t, s'.sent);
      if !t.frame.PollClosed? {
        var m :| m in s'.sent && m.frame == t.frame;
        assert FrameBounded(m.frame, s'.votes);
      }
    }
    CarriesRun(NEW_HUB, hubSteps, s'.votes);
    var ch := HubRun(NEW_HUB, hubSteps).chans[c];
    forall f | f in TakenFrames(ch.taken) ensures FrameBounded(f, s'.votes) {
      var i :| 0 <= i < |ch.taken| && ch.taken[i].frame == f;
      assert ch.taken[i] in ch.taken + ch.queue;
    }
    FoldBounded(view, s.poll, TakenFrames(ch.taken), s'.votes);
  }
}
